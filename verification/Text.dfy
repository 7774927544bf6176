// The string helpers of Go that the page-range code uses.
module Text {
  import opened Wrappers
  import opened Decimal

  const MAX_INT := 0x7FFF_FFFF_FFFF_FFFF
  const MIN_INT := -0x8000_0000_0000_0000

  // unicode.IsSpace.
  predicate IsSpace(c: char) {
    c in {' ', '\t', '\n', '\r', '\U{000B}', '\U{000C}', '\U{0085}', '\U{00A0}', '\U{1680}',
          '\U{2028}', '\U{2029}', '\U{202F}', '\U{205F}', '\U{3000}'}
    || '\U{2000}' <= c <= '\U{200A}'
  }

  function TrimLeft(s: string): string {
    if s != "" && IsSpace(s[0]) then TrimLeft(s[1..]) else s
  }

  function TrimRight(s: string): string {
    if s != "" && IsSpace(s[|s| - 1]) then TrimRight(s[..|s| - 1]) else s
  }

  function TrimSpace(s: string): string { TrimRight(TrimLeft(s)) }

  lemma TrimNothing(s: string)
    requires s != "" ==> !IsSpace(s[0]) && !IsSpace(s[|s| - 1])
    ensures TrimSpace(s) == s
  {
  }

  function IndexOf(s: string, c: char): (i: nat)
    requires c in s
    ensures i < |s| && s[i] == c && c !in s[..i]
  {
    if s[0] == c then 0 else 1 + IndexOf(s[1..], c)
  }

  // strings.Split for a one-character separator.
  function Split(s: string, sep: char): (parts: seq<string>)
    ensures |parts| > 0
  {
    if sep !in s then [s]
    else
      var i := IndexOf(s, sep);
      [s[..i]] + Split(s[i + 1..], sep)
  }

  function Join(parts: seq<string>, sep: char): string
    requires |parts| > 0
  {
    if |parts| == 1 then parts[0] else parts[0] + [sep] + Join(parts[1..], sep)
  }

  lemma SplitHead(u: string, rest: string, sep: char)
    requires sep !in u
    ensures Split(u + [sep] + rest, sep) == [u] + Split(rest, sep)
  {
    var s := u + [sep] + rest;
    assert s[|u|] == sep;
    var i := IndexOf(s, sep);
    assert s[..i] + [sep] + s[i + 1..] == s;
    SplitAtSeparator(s[..i], u, s[i + 1..], rest, sep);
  }

  // Splitting a join gives the parts back.
  lemma {:induction false} SplitOfJoin(parts: seq<string>, sep: char)
    requires |parts| > 0 && forall i :: 0 <= i < |parts| ==> sep !in parts[i]
    ensures Split(Join(parts, sep), sep) == parts
  {
    if |parts| > 1 {
      var rest := parts[1..];
      assert parts == [parts[0]] + rest;
      assert forall i :: 0 <= i < |rest| ==> rest[i] == parts[i + 1];
      SplitOfJoin(rest, sep);
      SplitHead(parts[0], Join(rest, sep), sep);
    }
  }

  // strconv.Atoi: an optional sign, then digits, within 64 bits.
  function Atoi(s: string): Option<int> {
    var negative := s != "" && s[0] == '-';
    var digits := if s != "" && (s[0] == '-' || s[0] == '+') then s[1..] else s;
    if digits == "" || !AllDigits(digits) then None
    else
      var v: int := if negative then 0 - Value(digits) else Value(digits);
      if MIN_INT <= v <= MAX_INT then Some(v) else None
  }

  lemma AtoiOfPrint(n: nat)
    requires n <= MAX_INT
    ensures Atoi(Print(n)) == Some(n) && TrimSpace(Print(n)) == Print(n)
    ensures '-' !in Print(n) && ',' !in Print(n)
  {
    ValueOfPrint(n);
    TrimNothing(Print(n));
  }

  // ---- What the helpers mean ----

  predicate AllSpaces(s: string) { forall k :: 0 <= k < |s| ==> IsSpace(s[k]) }

  lemma {:induction false} TrimLeftMeans(s: string) returns (pre: string)
    ensures s == pre + TrimLeft(s) && AllSpaces(pre)
    ensures TrimLeft(s) != "" ==> !IsSpace(TrimLeft(s)[0])
  {
    if s != "" && IsSpace(s[0]) {
      var rest := TrimLeftMeans(s[1..]);
      pre := [s[0]] + rest;
      assert s == [s[0]] + s[1..];
    } else {
      pre := "";
    }
  }

  lemma {:induction false} TrimRightMeans(s: string) returns (post: string)
    ensures s == TrimRight(s) + post && AllSpaces(post)
    ensures TrimRight(s) != "" ==> !IsSpace(TrimRight(s)[|TrimRight(s)| - 1])
  {
    if s != "" && IsSpace(s[|s| - 1]) {
      var rest := TrimRightMeans(s[..|s| - 1]);
      post := rest + [s[|s| - 1]];
      assert s == s[..|s| - 1] + [s[|s| - 1]];
    } else {
      post := "";
    }
  }

  // Trimming takes off spaces at both ends, and all of them.
  lemma TrimSpaceMeans(s: string) returns (pre: string, post: string)
    ensures s == pre + TrimSpace(s) + post && AllSpaces(pre) && AllSpaces(post)
    ensures TrimSpace(s) != "" ==> !IsSpace(TrimSpace(s)[0]) && !IsSpace(TrimSpace(s)[|TrimSpace(s)| - 1])
  {
    pre := TrimLeftMeans(s);
    post := TrimRightMeans(TrimLeft(s));
    assert TrimSpace(s) != "" ==> TrimSpace(s)[0] == TrimLeft(s)[0];
  }

  // Splitting gives parts without the separator whose join is the text.
  lemma {:induction false} SplitMeans(s: string, sep: char)
    ensures Join(Split(s, sep), sep) == s
    ensures forall i :: 0 <= i < |Split(s, sep)| ==> sep !in Split(s, sep)[i]
  {
    if sep in s {
      var i := IndexOf(s, sep);
      SplitMeans(s[i + 1..], sep);
      assert Split(s, sep)[1..] == Split(s[i + 1..], sep);
      assert s == s[..i] + [sep] + s[i + 1..];
    }
  }

  // Digits with at most one sign, within 64 bits: their value; anything else: no number.
  lemma AtoiMeans(digits: string)
    requires digits != "" && AllDigits(digits)
    ensures Atoi(digits) == if Value(digits) <= 9223372036854775807 then Some(Value(digits)) else None
    ensures Atoi("+" + digits) == Atoi(digits)
    ensures Atoi("-" + digits) == if Value(digits) <= 9223372036854775808 then Some(0 - Value(digits)) else None
  {
    assert IsDigit(digits[0]);
    assert ("+" + digits)[1..] == digits && ("-" + digits)[1..] == digits;
  }

  lemma AtoiRejects(s: string)
    ensures Atoi(s).Some? ==>
      var digits := if s != "" && (s[0] == '-' || s[0] == '+') then s[1..] else s; digits != "" && AllDigits(digits)
  {
  }
}
