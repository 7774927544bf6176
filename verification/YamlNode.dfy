// The same on the heap: yaml.Node objects that setYAMLPath updates in place. The Go
// loop descends by reassigning a pointer; here each level of descent is a call.
module YamlNodes {
  import opened Wrappers
  import opened Yaml

  class YamlNode {
    var isMapping: bool
    var text: string
    var keys: seq<string>
    var kids: seq<YamlNode>
    ghost var Repr: set<object>

    // A tree: no node is reached twice.
    ghost predicate Valid()
      reads this, Repr
      decreases Repr
    {
      && this in Repr
      && |keys| == |kids|
      && (forall i :: 0 <= i < |kids| ==>
           kids[i] in Repr && kids[i].Repr <= Repr && this !in kids[i].Repr && kids[i].Valid())
      && (forall i, j :: 0 <= i < j < |kids| ==> kids[i].Repr !! kids[j].Repr)
    }

    ghost function Contents(): Tree
      requires Valid()
      reads this, Repr
      decreases Repr
    {
      if isMapping then
        Mapping(seq(|kids|, i requires 0 <= i < |kids| && Valid() reads this, Repr =>
          Entry(keys[i], kids[i].Contents())))
      else Leaf(text)
    }

    constructor EmptyMapping()
      ensures Valid() && fresh(Repr) && Contents() == Mapping([]) && Repr == {this}
    {
      isMapping, text, keys, kids, Repr := true, "", [], [], {this};
    }
  }

  method FindKey(n: YamlNode, key: string) returns (i: nat)
    requires n.Valid() && n.isMapping
    ensures i <= |n.kids| && i == Find(n.Contents().entries, key)
  {
    ghost var entries := n.Contents().entries;
    i := 0;
    while i < |n.keys| && n.keys[i] != key
      invariant i <= |n.keys|
      invariant forall k :: 0 <= k < i ==> entries[k].key != key
    {
      i := i + 1;
    }
    FindUnique(entries, key, i);
  }

  lemma ChildIsValid(n: YamlNode, k: nat)
    requires n.Valid() && k < |n.kids|
    ensures n.kids[k].Valid() && n.kids[k] in n.Repr && n.kids[k].Repr <= n.Repr && n !in n.kids[k].Repr
    ensures n.isMapping ==>
      && |n.Contents().entries| == |n.kids|
      && n.Contents().entries[k] == Entry(n.keys[k], n.kids[k].Contents())
  {
  }

  // One step down a path.
  method Descend(n: YamlNode, path: Path) returns (child: YamlNode?)
    requires n.Valid() && path != []
    ensures child == null ==> Get(n.Contents(), path) == None
    ensures child != null ==>
      && child in n.Repr && child.Repr <= n.Repr && child.Valid()
      && Get(n.Contents(), path) == Get(child.Contents(), path[1..])
  {
    if !n.isMapping {
      return null;
    }
    var k := FindKey(n, path[0]);
    if k == |n.kids| {
      return null;
    }
    ChildIsValid(n, k);
    child := n.kids[k];
  }

  // yamlPath.
  method YamlPath(root: YamlNode, path: Path) returns (n: YamlNode?)
    requires root.Valid()
    ensures n == null <==> Get(root.Contents(), path) == None
    ensures n != null ==> n in root.Repr && n.Valid() && Get(root.Contents(), path) == Some(n.Contents())
  {
    n := root;
    var i := 0;
    while i < |path|
      invariant i <= |path| && n != null && n in root.Repr && n.Repr <= root.Repr && n.Valid()
      invariant Get(root.Contents(), path) == Get(n.Contents(), path[i..])
    {
      n := Descend(n, path[i..]);
      if n == null {
        return null;
      }
      assert path[i..][1..] == path[i + 1..];
      i := i + 1;
    }
  }

  // The replacement node is copied over n: its fields, not its identity.
  method Overwrite(n: YamlNode, v: YamlNode)
    requires n.Valid() && v.Valid() && n.Repr !! v.Repr
    modifies n
    ensures n.Valid() && n.Repr <= old(n.Repr) + v.Repr && n.Contents() == old(v.Contents())
  {
    n.isMapping, n.text, n.keys, n.kids := v.isMapping, v.text, v.keys, v.kids;
    n.Repr := {n} + (v.Repr - {v});
  }

  // A tree none of whose nodes has changed is the same tree.
  twostate lemma SameTree(n: YamlNode)
    requires old(n.Valid()) && forall o :: o in old(n.Repr) ==> unchanged(o)
    ensures n.Valid() && n.Repr == old(n.Repr) && n.Contents() == old(n.Contents())
  {
  }

  lemma AppendedTo(n: YamlNode, entries: seq<Entry>, last: Entry)
    requires n.Valid() && n.isMapping && |n.kids| == |entries| + 1
    requires forall j :: 0 <= j < |entries| ==> entries[j] == Entry(n.keys[j], n.kids[j].Contents())
    requires last == Entry(n.keys[|entries|], n.kids[|entries|].Contents())
    ensures n.Contents() == Mapping(entries + [last])
  {
  }

  // A missing key gets a fresh, empty mapping at the end.
  method AddChild(n: YamlNode, key: string)
    requires n.Valid() && n.isMapping && Find(n.Contents().entries, key) == |n.kids|
    modifies n
    ensures n.Valid() && n.isMapping && fresh(n.Repr - old(n.Repr)) && old(n.Repr) <= n.Repr
    ensures n.Contents() == Mapping(old(n.Contents()).entries + [Entry(key, Mapping([]))])
    ensures n.keys == old(n.keys) + [key] && |n.kids| == |old(n.kids)| + 1
  {
    ghost var entries := n.Contents().entries;
    label before:
    var child := new YamlNode.EmptyMapping();
    n.keys := n.keys + [key];
    n.kids := n.kids + [child];
    n.Repr := n.Repr + {child};
    forall j | 0 <= j < |entries|
      ensures n.kids[j].Valid() && n.kids[j].Repr == old(n.kids[j].Repr) && n.kids[j].Contents() == entries[j].value
    {
      SameTree@before(n.kids[j]);
    }
    assert n.Valid();
    AppendedTo(n, entries, Entry(key, Mapping([])));
  }

  // After child i alone has changed, its parent is the old tree with that entry replaced.
  lemma ParentOf(n: YamlNode, i: nat, entries: seq<Entry>, child: Tree)
    requires n.Valid() && n.isMapping && i < |n.kids| == |entries|
    requires n.kids[i].Contents() == child && entries[i].key == n.keys[i]
    requires forall j :: 0 <= j < |n.kids| && j != i ==> entries[j] == Entry(n.keys[j], n.kids[j].Contents())
    ensures n.Contents() == Mapping(entries[i := Entry(n.keys[i], child)])
  {
  }

  // One level of the descent: the rest of the path is set in child i.
  method SetInChild(n: YamlNode, i: nat, rest: Path, v: YamlNode) returns (ok: bool)
    requires n.Valid() && v.Valid() && n.Repr !! v.Repr && n.isMapping && i < |n.kids|
    modifies n.Repr
    ensures ok <==> Set(old(n.Contents()).entries[i].value, rest, old(v.Contents())).Some?
    ensures n.Valid() && fresh(n.Repr - old(n.Repr) - v.Repr)
    ensures ok ==> n.Contents() == Mapping(old(n.Contents()).entries[
      i := Entry(old(n.keys)[i], Set(old(n.Contents()).entries[i].value, rest, old(v.Contents())).value)])
    ensures !ok ==> n.Contents() == old(n.Contents()) && n.Repr == old(n.Repr)
    decreases |rest|, 1
  {
    ghost var entries := n.Contents().entries;
    label before:
    ok := SetYAMLPath(n.kids[i], rest, v);
    n.Repr := n.Repr + n.kids[i].Repr;
    forall j | 0 <= j < |n.kids| && j != i
      ensures n.kids[j].Valid() && n.kids[j].Repr == old(n.kids[j].Repr)
      ensures n.kids[j].Contents() == entries[j].value
    {
      SameTree@before(n.kids[j]);
    }
    assert n.Valid();
    ParentOf(n, i, entries, n.kids[i].Contents());
    if !ok {
      assert entries[i := entries[i]] == entries;
    }
  }

  // setYAMLPath below the document node. It fails without any change, or updates in place.
  method SetYAMLPath(n: YamlNode, path: Path, v: YamlNode) returns (ok: bool)
    requires n.Valid() && v.Valid() && n.Repr !! v.Repr
    modifies n.Repr
    ensures ok <==> Set(old(n.Contents()), path, old(v.Contents())).Some?
    ensures n.Valid() && fresh(n.Repr - old(n.Repr) - v.Repr)
    ensures ok ==> n.Contents() == Set(old(n.Contents()), path, old(v.Contents())).value
    ensures !ok ==> n.Contents() == old(n.Contents()) && n.Repr == old(n.Repr)
    decreases |path|, 0
  {
    if path == [] {
      Overwrite(n, v);
      return true;
    }
    if !n.isMapping {
      return false;
    }
    var i := FindKey(n, path[0]);
    if i == |n.kids| {
      ok := SetInNewChild(n, path, v);
    } else {
      ok := SetInChild(n, i, path[1..], v);
    }
  }

  lemma EmptySettable(path: Path, v: Tree)
    ensures Set(Mapping([]), path, v).Some?
  {
    if path != [] { EmptySettable(path[1..], v); }
  }

  method SetInNewChild(n: YamlNode, path: Path, v: YamlNode) returns (ok: bool)
    requires n.Valid() && v.Valid() && n.Repr !! v.Repr && n.isMapping && path != []
    requires Find(n.Contents().entries, path[0]) == |n.kids|
    modifies n.Repr
    ensures ok && Set(old(n.Contents()), path, old(v.Contents())).Some?
    ensures n.Valid() && fresh(n.Repr - old(n.Repr) - v.Repr)
    ensures n.Contents() == Set(old(n.Contents()), path, old(v.Contents())).value
    decreases |path| - 1, 2
  {
    ghost var entries := n.Contents().entries;
    var i := |n.kids|;
    AddChild(n, path[0]);
    EmptySettable(path[1..], v.Contents());
    ok := SetInChild(n, i, path[1..], v);
    assert n.Contents().entries == WithChild(entries, path[0], n.Contents().entries[i].value);
  }
}
