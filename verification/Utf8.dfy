// UTF-8 as Go's unicode/utf8 decodes and encodes it (sections 3 and 4 of RFC 3629):
// an ill-formed or truncated sequence counts as one rune RUNE_ERROR of size 1.
module Utf8 {
  type byte = b: int | 0 <= b < 256

  const RUNE_ERROR := 0xFFFD

  datatype Decoded = Decoded(rune: nat, size: nat)

  const INVALID := Decoded(RUNE_ERROR, 1)

  // The number of bytes a first byte announces, 0 when it can start no sequence.
  function Announced(b: byte): nat {
    if b < 0x80 then 1
    else if 0xC2 <= b <= 0xDF then 2
    else if 0xE0 <= b <= 0xEF then 3
    else if 0xF0 <= b <= 0xF4 then 4
    else 0
  }

  // The second bytes a first byte admits: no overlong form, no surrogate, nothing above U+10FFFF.
  predicate Accepts(first: byte, second: byte) {
    var lo := if first == 0xE0 then 0xA0 else if first == 0xF0 then 0x90 else 0x80;
    var hi := if first == 0xED then 0x9F else if first == 0xF4 then 0x8F else 0xBF;
    lo <= second <= hi
  }

  predicate Continues(b: byte) { 0x80 <= b <= 0xBF }

  // utf8.DecodeRune: the rune at the front of p and its size; an ill-formed byte is RUNE_ERROR of size 1.
  function DecodeRune(p: seq<byte>): (r: Decoded)
    requires |p| > 0
    ensures 1 <= r.size <= |p|
  {
    var n := Announced(p[0]);
    if n == 0 || |p| < n then INVALID
    else if n == 1 then Decoded(p[0], 1)
    else if !Accepts(p[0], p[1]) then INVALID
    else
      var lead: int, second: int := p[0], p[1] - 0x80;
      if n == 2 then Decoded((lead - 0xC0) * 64 + second, 2)
      else if !Continues(p[2]) then INVALID
      else if n == 3 then Decoded(((lead - 0xE0) * 64 + second) * 64 + (p[2] - 0x80), 3)
      else if !Continues(p[3]) then INVALID
      else Decoded((((lead - 0xF0) * 64 + second) * 64 + (p[2] - 0x80)) * 64 + (p[3] - 0x80), 4)
  }

  // utf8.AppendRune; anything that is not a Unicode scalar value is written as RUNE_ERROR.
  function EncodeRune(r: nat): seq<byte> {
    if r <= 0x7F then [r]
    else if r <= 0x7FF then [0xC0 + r / 64, 0x80 + r % 64]
    else if 0xD800 <= r <= 0xDFFF || r > 0x10FFFF then [0xEF, 0xBF, 0xBD]
    else if r <= 0xFFFF then [0xE0 + r / 64 / 64, 0x80 + r / 64 % 64, 0x80 + r % 64]
    else [0xF0 + r / 64 / 64 / 64, 0x80 + r / 64 / 64 % 64, 0x80 + r / 64 % 64, 0x80 + r % 64]
  }

  predicate IsScalar(r: nat) { r <= 0x10FFFF && !(0xD800 <= r <= 0xDFFF) }

  lemma Digits64(q: nat, c: nat)
    requires c < 64
    ensures (q * 64 + c) / 64 == q && (q * 64 + c) % 64 == c
  {
  }

  lemma EncodeOfThree(p: seq<byte>)
    requires |p| > 0 && DecodeRune(p).size == 3
    ensures EncodeRune(DecodeRune(p).rune) == p[..3] && IsScalar(DecodeRune(p).rune)
  {
    var (a, b, c) := (p[0] as int - 0xE0, p[1] as int - 0x80, p[2] as int - 0x80);
    Digits64(a, b);
    Digits64(a * 64 + b, c);
  }

  lemma EncodeOfFour(p: seq<byte>)
    requires |p| > 0 && DecodeRune(p).size == 4
    ensures EncodeRune(DecodeRune(p).rune) == p[..4] && IsScalar(DecodeRune(p).rune)
  {
    var (a, b, c, d) := (p[0] as int - 0xF0, p[1] as int - 0x80, p[2] as int - 0x80, p[3] as int - 0x80);
    Digits64(a, b);
    Digits64(a * 64 + b, c);
    Digits64((a * 64 + b) * 64 + c, d);
  }

  // Writing a well-formed rune gives back the very bytes it was read from.
  lemma EncodeOfDecode(p: seq<byte>)
    requires |p| > 0 && DecodeRune(p) != INVALID
    ensures EncodeRune(DecodeRune(p).rune) == p[..DecodeRune(p).size]
    ensures IsScalar(DecodeRune(p).rune)
  {
    match DecodeRune(p).size
    case 3 => EncodeOfThree(p);
    case 4 => EncodeOfFour(p);
    case _ =>
  }

  // Reading what was written gives a scalar value back, U+FFFD for any other number, whatever follows.
  lemma DecodeOfEncode(r: nat, rest: seq<byte>)
    ensures var scalar := r <= 0x10FFFF && !(0xD800 <= r <= 0xDFFF);
      DecodeRune(EncodeRune(r) + rest) == Decoded(if scalar then r else 0xFFFD, |EncodeRune(r)|) != INVALID
  {
  }

  lemma EncodedAtFront(r: nat, p: seq<byte>)
    requires EncodeRune(r) <= p
    ensures p != [] && DecodeRune(p) != INVALID
  {
    DecodeOfEncode(r, p[|EncodeRune(r)|..]);
    assert p == EncodeRune(r) + p[|EncodeRune(r)|..];
  }

  // Bytes are ill-formed at the front exactly when they begin with no scalar value's encoding.
  lemma IllFormedExactly(p: seq<byte>)
    requires |p| > 0
    ensures DecodeRune(p) == INVALID <==> forall r :: IsScalar(r) ==> !(EncodeRune(r) <= p)
  {
    if DecodeRune(p) != INVALID {
      EncodeOfDecode(p);
      assert EncodeRune(DecodeRune(p).rune) <= p;
    }
    forall r | IsScalar(r) && EncodeRune(r) <= p ensures DecodeRune(p) != INVALID { EncodedAtFront(r, p); }
  }
}
