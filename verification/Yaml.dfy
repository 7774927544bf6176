// Reading and setting a path of a YAML tree (yamlPath in pkg/dashboard/control_settings.go,
// setYAMLPath in pkg/dashboard/settings.go), on values. A mapping keeps its entries in
// document order and may hold a key twice: the first one counts.
module Yaml {
  import opened Wrappers

  // A Leaf is any node that is not a mapping: scalar, sequence or alias.
  datatype Tree = Leaf(text: string) | Mapping(entries: seq<Entry>)
  datatype Entry = Entry(key: string, value: Tree)

  type Path = seq<string>

  function Find(entries: seq<Entry>, key: string): (i: nat)
    ensures i <= |entries|
    ensures i < |entries| ==> entries[i].key == key
    ensures forall k :: 0 <= k < i ==> entries[k].key != key
  {
    if entries == [] || entries[0].key == key then 0 else 1 + Find(entries[1..], key)
  }

  function Get(t: Tree, path: Path): Option<Tree>
    decreases |path|
  {
    if path == [] then Some(t)
    else if !t.Mapping? then None
    else
      var i := Find(t.entries, path[0]);
      if i == |t.entries| then None else Get(t.entries[i].value, path[1..])
  }

  // The subtree under `key`, an empty mapping when it is missing.
  function ChildOrNew(entries: seq<Entry>, key: string): Tree {
    var i := Find(entries, key);
    if i < |entries| then entries[i].value else Mapping([])
  }

  function WithChild(entries: seq<Entry>, key: string, child: Tree): seq<Entry> {
    var i := Find(entries, key);
    if i < |entries| then entries[i := Entry(key, child)] else entries + [Entry(key, child)]
  }

  // None when some node on the way is not a mapping.
  function Set(t: Tree, path: Path, v: Tree): Option<Tree>
    decreases |path|
  {
    if path == [] then Some(v)
    else if !t.Mapping? then None
    else match Set(ChildOrNew(t.entries, path[0]), path[1..], v)
      case None => None
      case Some(child) => Some(Mapping(WithChild(t.entries, path[0], child)))
  }

  // ---- One level ----

  lemma FindUnique(entries: seq<Entry>, key: string, i: nat)
    requires i <= |entries| && (i < |entries| ==> entries[i].key == key)
    requires forall k :: 0 <= k < i ==> entries[k].key != key
    ensures Find(entries, key) == i
  {
  }

  lemma WithChildFind(entries: seq<Entry>, key: string, child: Tree, other: string)
    ensures var (i, es) := (Find(entries, key), WithChild(entries, key, child));
      && Find(es, key) == i < |es| && es[i] == Entry(key, child)
      && (other != key ==>
           (Find(es, other) == |es| <==> Find(entries, other) == |entries|)
           && (Find(entries, other) < |entries| ==>
                 Find(es, other) == Find(entries, other)
                     && es[Find(es, other)].value == entries[Find(entries, other)].value))
  {
    var es := WithChild(entries, key, child);
    FindUnique(es, key, Find(entries, key));
    if other != key {
      FindUnique(es, other, if Find(entries, other) < |entries| then Find(entries, other) else |es|);
    }
  }

  // ---- Lens laws ----

  // What was set reads back, below the path too.
  lemma {:induction false} SetThenGet(t: Tree, path: Path, v: Tree, ext: Path)
    requires Set(t, path, v).Some?
    ensures Get(Set(t, path, v).value, path + ext) == Get(v, ext)
    decreases |path|
  {
    if path == [] {
      assert path + ext == ext;
    } else {
      assert (path + ext)[1..] == path[1..] + ext;
      SetThenGet(ChildOrNew(t.entries, path[0]), path[1..], v, ext);
      WithChildFind(t.entries, path[0], Set(ChildOrNew(t.entries, path[0]), path[1..], v).value, path[0]);
    }
  }

  predicate Comparable(p: Path, q: Path) { p <= q || q <= p }

  lemma ComparableTail(p: Path, q: Path)
    requires p != [] && q != [] && p[0] == q[0]
    ensures Comparable(p, q) == Comparable(p[1..], q[1..])
  {
    assert p == [p[0]] + p[1..] && q == [q[0]] + q[1..];
  }

  lemma {:induction false} GetOfEmpty(q: Path)
    requires q != []
    ensures Get(Mapping([]), q) == None
  {
  }

  // A path that is neither a prefix nor an extension reads as before.
  lemma {:induction false} SetFrame(t: Tree, path: Path, v: Tree, q: Path)
    requires Set(t, path, v).Some? && !Comparable(path, q)
    ensures Get(Set(t, path, v).value, q) == Get(t, q)
    decreases |path|
  {
    var (child, key) := (ChildOrNew(t.entries, path[0]), path[0]);
    WithChildFind(t.entries, key, Set(child, path[1..], v).value, q[0]);
    if q[0] == key {
      ComparableTail(path, q);
      SetFrame(child, path[1..], v, q[1..]);
      if Find(t.entries, key) == |t.entries| { GetOfEmpty(q[1..]); }
    }
  }

  // The nodes above the path are mappings afterwards.
  lemma {:induction false} SetMakesMappings(t: Tree, path: Path, v: Tree, k: nat)
    requires Set(t, path, v).Some? && k < |path|
    ensures var r := Get(Set(t, path, v).value, path[..k]); r.Some? && r.value.Mapping?
    decreases |path|
  {
    if k > 0 {
      assert path[..k][1..] == path[1..][..k - 1];
      SetMakesMappings(ChildOrNew(t.entries, path[0]), path[1..], v, k - 1);
      WithChildFind(t.entries, path[0], Set(ChildOrNew(t.entries, path[0]), path[1..], v).value, path[0]);
    }
  }

  predicate PassesAt(t: Tree, path: Path, k: nat)
    requires k < |path|
  {
    Get(t, path[..k]).None? || Get(t, path[..k]).value.Mapping?
  }

  // A set succeeds exactly when no node above the path is something else than a mapping.
  ghost predicate Settable(t: Tree, path: Path) {
    forall k :: 0 <= k < |path| ==> PassesAt(t, path, k)
  }

  lemma {:induction false} SetSucceedsWhen(t: Tree, path: Path, v: Tree)
    ensures Set(t, path, v).Some? <==> Settable(t, path)
    decreases |path|
  {
    if path != [] {
      assert path[..0] == [];
      assert PassesAt(t, path, 0) <==> t.Mapping?;
      if t.Mapping? {
        var child := ChildOrNew(t.entries, path[0]);
        SetSucceedsWhen(child, path[1..], v);
        forall k | 0 < k < |path|
          ensures PassesAt(t, path, k) <==> PassesAt(child, path[1..], k - 1)
        {
          assert path[..k][1..] == path[1..][..k - 1];
          if k > 1 && Find(t.entries, path[0]) == |t.entries| { GetOfEmpty(path[1..][..k - 1]); }
        }
        if Settable(t, path) {
          forall k | 0 <= k < |path| - 1 ensures PassesAt(child, path[1..], k) { assert PassesAt(t, path, k + 1); }
        }
      }
    }
  }

  lemma {:induction false} GetThenSet(t: Tree, path: Path)
    requires Get(t, path).Some?
    ensures Set(t, path, Get(t, path).value) == Some(t)
    decreases |path|
  {
    if path != [] {
      var i := Find(t.entries, path[0]);
      GetThenSet(t.entries[i].value, path[1..]);
      assert t.entries[i := t.entries[i]] == t.entries;
    }
  }

  lemma {:induction false} SetTwice(t: Tree, path: Path, v: Tree, w: Tree)
    requires Set(t, path, v).Some?
    ensures Set(Set(t, path, v).value, path, w) == Set(t, path, w)
    decreases |path|
  {
    if path != [] {
      var child := ChildOrNew(t.entries, path[0]);
      var c1 := Set(child, path[1..], v).value;
      SetTwice(child, path[1..], v, w);
      SetSucceedsWhen(child, path[1..], v);
      SetSucceedsWhen(child, path[1..], w);
      WithChildFind(t.entries, path[0], c1, path[0]);
      var c2 := Set(child, path[1..], w).value;
      assert WithChild(WithChild(t.entries, path[0], c1), path[0], c2) == WithChild(t.entries, path[0], c2);
    }
  }

  // ---- A set of changes, applied in some order ----

  datatype Change = Change(path: Path, value: Tree)

  // Stops with None at the first change that fails.
  function SetAll(t: Tree, changes: seq<Change>): Option<Tree> {
    if changes == [] then Some(t)
    else match SetAll(t, changes[..|changes| - 1])
      case None => None
      case Some(t') => Set(t', changes[|changes| - 1].path, changes[|changes| - 1].value)
  }

  ghost predicate Independent(changes: seq<Change>) {
    forall i, j :: 0 <= i < j < |changes| ==> !Comparable(changes[i].path, changes[j].path)
  }

  // What every path reads after the changes: below a change its value, above one a
  // mapping, elsewhere what it read before.
  ghost predicate ReadsAs(t: Tree, changes: seq<Change>, t': Tree) {
    && (forall c, ext :: c in changes ==> Get(t', c.path + ext) == Get(c.value, ext))
    && (forall c, k :: c in changes && 0 <= k < |c.path| ==>
        Get(t', c.path[..k]).Some? && Get(t', c.path[..k]).value.Mapping?)
    && (forall q: Path :: (forall c :: c in changes ==> !Comparable(c.path, q)) ==> Get(t', q) == Get(t, q))
  }

  lemma IncomparableExtension(p: Path, q: Path, ext: Path)
    requires !Comparable(p, q)
    ensures !Comparable(p, q + ext)
  {
    assert |p| <= |q| ==> (q + ext)[..|p|] == q[..|p|];
    assert |p| > |q| ==> (q + ext)[..|q|] == q;
  }

  lemma SettableAfter(t: Tree, p: Path, v: Tree, q: Path)
    requires Set(t, p, v).Some? && !Comparable(p, q)
    ensures Settable(Set(t, p, v).value, q) <==> Settable(t, q)
  {
    var t' := Set(t, p, v).value;
    SetSucceedsWhen(t, p, v);
    forall k | 0 <= k < |q| ensures PassesAt(t', q, k) <==> PassesAt(t, q, k) {
      var r := q[..k];
      if Comparable(p, r) {
        assert p <= r ==> p <= q;
        assert r == p[..k];
        SetMakesMappings(t, p, v, k);
        assert PassesAt(t, p, k);
      } else {
        SetFrame(t, p, v, r);
      }
    }
  }

  lemma SetAllInit(t: Tree, changes: seq<Change>)
    requires changes != [] && Independent(changes)
    ensures Independent(changes[..|changes| - 1])
    ensures forall c :: c in changes[..|changes| - 1] ==> !Comparable(c.path, changes[|changes| - 1].path)
    ensures forall c :: c in changes <==> c in changes[..|changes| - 1] || c == changes[|changes| - 1]
  {
    assert changes == changes[..|changes| - 1] + [changes[|changes| - 1]];
  }

  lemma StepReadsAs(t: Tree, init: seq<Change>, c: Change, t1: Tree)
    requires ReadsAs(t, init, t1) && Set(t1, c.path, c.value).Some?
    requires forall d :: d in init ==> !Comparable(d.path, c.path)
    ensures ReadsAs(t, init + [c], Set(t1, c.path, c.value).value)
  {
    var t' := Set(t1, c.path, c.value).value;
    forall d, ext | d in init + [c] ensures Get(t', d.path + ext) == Get(d.value, ext) {
      if d == c {
        SetThenGet(t1, c.path, c.value, ext);
      } else {
        IncomparableExtension(c.path, d.path, ext);
        SetFrame(t1, c.path, c.value, d.path + ext);
      }
    }
    forall d, k | d in init + [c] && 0 <= k < |d.path|
      ensures Get(t', d.path[..k]).Some? && Get(t', d.path[..k]).value.Mapping?
    {
      if d == c {
        SetMakesMappings(t1, c.path, c.value, k);
      } else if Comparable(c.path, d.path[..k]) {
        assert c.path <= d.path[..k] ==> c.path <= d.path;
        assert d.path[..k] == c.path[..k];
        SetMakesMappings(t1, c.path, c.value, k);
      } else {
        SetFrame(t1, c.path, c.value, d.path[..k]);
      }
    }
    forall q: Path | forall d :: d in init + [c] ==> !Comparable(d.path, q) ensures Get(t', q) == Get(t, q) {
      assert c in init + [c];
      assert forall d :: d in init ==> d in init + [c];
      SetFrame(t1, c.path, c.value, q);
    }
  }

  // Independent changes all succeed exactly when each would on its own, and then read as ReadsAs says.
  lemma {:induction false} SetAllReads(t: Tree, changes: seq<Change>)
    requires Independent(changes)
    ensures SetAll(t, changes).Some? <==> forall c :: c in changes ==> Settable(t, c.path)
    ensures SetAll(t, changes).Some? ==> ReadsAs(t, changes, SetAll(t, changes).value)
    ensures SetAll(t, changes).Some? ==>
      forall q :: (forall c :: c in changes ==> !Comparable(c.path, q)) ==>
          (Settable(SetAll(t, changes).value, q) <==> Settable(t, q))
  {
    if changes != [] {
      var (init, c) := (changes[..|changes| - 1], changes[|changes| - 1]);
      SetAllInit(t, changes);
      SetAllReads(t, init);
      assert init + [c] == changes;
      if SetAll(t, init).Some? {
        var t1 := SetAll(t, init).value;
        SetSucceedsWhen(t1, c.path, c.value);
        if SetAll(t, changes).Some? {
          StepReadsAs(t, init, c, t1);
          forall q | forall d :: d in changes ==> !Comparable(d.path, q)
            ensures Settable(SetAll(t, changes).value, q) <==> Settable(t, q)
          {
            SettableAfter(t1, c.path, c.value, q);
          }
        }
      }
    }
  }

  // What a path shows, entry order aside.
  datatype View = Nothing | AMapping | ALeaf(text: string)

  function Show(t: Tree, q: Path): View {
    match Get(t, q)
    case None => Nothing
    case Some(Leaf(text)) => ALeaf(text)
    case Some(Mapping(_)) => AMapping
  }

  // What ReadsAs leaves open is only the order of entries.
  lemma ReadsShowAlike(t: Tree, a: seq<Change>, ta: Tree, tb: Tree, q: Path)
    requires ReadsAs(t, a, ta) && ReadsAs(t, a, tb)
    ensures Show(ta, q) == Show(tb, q)
  {
    if c :| c in a && Comparable(c.path, q) {
      if c.path <= q {
        assert q == c.path + q[|c.path|..];
      } else {
        assert q == c.path[..|q|];
      }
    }
  }

  lemma ReadsAsOfSame(t: Tree, a: seq<Change>, b: seq<Change>, t': Tree)
    requires ReadsAs(t, b, t') && forall c :: c in a <==> c in b
    ensures ReadsAs(t, a, t')
  {
  }

  // The order in which a map of independent changes is iterated changes neither whether
  // they apply nor what any path shows afterwards.
  lemma OrderIsIrrelevant(t: Tree, a: seq<Change>, b: seq<Change>)
    requires Independent(a) && Independent(b) && forall c :: c in a <==> c in b
    ensures SetAll(t, a).Some? <==> SetAll(t, b).Some?
    ensures SetAll(t, a).Some? ==> forall q :: Show(SetAll(t, a).value, q) == Show(SetAll(t, b).value, q)
  {
    SetAllReads(t, a);
    SetAllReads(t, b);
    if SetAll(t, a).Some? {
      ReadsAsOfSame(t, a, b, SetAll(t, b).value);
      forall q ensures Show(SetAll(t, a).value, q) == Show(SetAll(t, b).value, q) {
        ReadsShowAlike(t, a, SetAll(t, a).value, SetAll(t, b).value, q);
      }
    }
  }
}
