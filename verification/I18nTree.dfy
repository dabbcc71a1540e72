/**
 * Translating the strings of a JSON tree: they are collected with their paths, translated in
 * batches, and put back by path; an interrupted translation resumes from the saved tree.
 */
module I18nTree {
  datatype Key = Name(name: string) | Index(index: nat)

  type Path = seq<Key>

  /** `Other` stands for numbers, truth values and null. */
  datatype Tree = Str(text: string) | Other(scalar: int) | List(items: seq<Tree>) | Dict(fields: seq<Field>)

  datatype Field = Field(key: string, value: Tree)

  datatype Leaf = Leaf(path: Path, text: string)

  // ---------------------------------------------------------------- children of a node

  function Arity(t: Tree): nat {
    if t.List? then |t.items| else if t.Dict? then |t.fields| else 0
  }

  function ChildKey(t: Tree, i: nat): Key
    requires i < Arity(t)
  {
    if t.List? then Index(i) else Name(t.fields[i].key)
  }

  function Child(t: Tree, i: nat): Tree
    requires i < Arity(t)
  {
    if t.List? then t.items[i] else t.fields[i].value
  }

  /** The keys of every dictionary are distinct. */
  predicate WellFormed(t: Tree) {
    (forall i, j :: 0 <= i < j < Arity(t) ==> ChildKey(t, i) != ChildKey(t, j)) &&
    forall i :: 0 <= i < Arity(t) ==> WellFormed(Child(t, i))
  }

  // ---------------------------------------------------------------- collect and replace

  function Collect(t: Tree, path: Path): seq<Leaf>
    decreases t, Arity(t) + 1
  {
    if t.Str? then [Leaf(path, t.text)] else CollectFrom(t, 0, path)
  }

  function CollectFrom(t: Tree, i: nat, path: Path): seq<Leaf>
    decreases t, Arity(t) - i
  {
    if i >= Arity(t) then []
    else Collect(Child(t, i), path + [ChildKey(t, i)]) + CollectFrom(t, i + 1, path)
  }

  function Replace(t: Tree, path: Path, mapping: map<Path, string>): Tree {
    if path in mapping then Str(mapping[path])
    else
      match t
      case List(items) =>
        List(seq(|items|, i requires 0 <= i < |items| => Replace(items[i], path + [Index(i)], mapping)))
      case Dict(fields) =>
        Dict(seq(|fields|, i requires 0 <= i < |fields| =>
                   Field(fields[i].key, Replace(fields[i].value, path + [Name(fields[i].key)], mapping))))
      case _ => t
  }

  /** The list shared by the recursive calls of the collecting traversal. */
  class Collected {
    var leaves: seq<Leaf>

    constructor ()
      ensures leaves == []
    {
      leaves := [];
    }

    method Traverse(t: Tree, path: Path)
      modifies this
      ensures leaves == old(leaves) + Collect(t, path)
      decreases t
    {
      hide Collect, CollectFrom;
      CollectSplit(t, path, 0);
      if t.Str? {
        leaves := leaves + [Leaf(path, t.text)];
      } else {
        var i := 0;
        while i < Arity(t)
          invariant i <= Arity(t)
          invariant leaves + CollectFrom(t, i, path) == old(leaves) + Collect(t, path)
        {
          CollectSplit(t, path, i);
          Traverse(Child(t, i), path + [ChildKey(t, i)]);
          i := i + 1;
        }
        CollectSplit(t, path, i);
      }
    }
  }

  lemma {:induction false} CollectSplit(t: Tree, path: Path, i: nat)
    ensures Collect(t, path) == if t.Str? then [Leaf(path, t.text)] else CollectFrom(t, 0, path)
    ensures CollectFrom(t, i, path) ==
            if i >= Arity(t) then []
            else Collect(Child(t, i), path + [ChildKey(t, i)]) + CollectFrom(t, i + 1, path)
  {
  }

  // ---------------------------------------------------------------- paths of the leaves

  lemma {:induction false} LeavesBelow(t: Tree, path: Path)
    ensures forall l :: l in Collect(t, path) ==> path <= l.path
    ensures !t.Str? ==> forall l :: l in Collect(t, path) ==> |path| < |l.path|
    decreases t, Arity(t) + 1
  {
    if !t.Str? {
      LeavesBelowChildren(t, 0, path);
    }
  }

  /** The leaves collected from child i on lie below children i, i+1, .... */
  lemma {:induction false} LeavesBelowChildren(t: Tree, i: nat, path: Path)
    ensures forall l :: l in CollectFrom(t, i, path) ==>
              path <= l.path && |path| < |l.path| &&
              exists j :: i <= j < Arity(t) && l.path[|path|] == ChildKey(t, j)
    decreases t, Arity(t) - i
  {
    if i < Arity(t) {
      var below := path + [ChildKey(t, i)];
      LeavesBelow(Child(t, i), below);
      LeavesBelowChildren(t, i + 1, path);
      forall l | l in Collect(Child(t, i), below)
        ensures path <= l.path && |path| < |l.path| && l.path[|path|] == ChildKey(t, i)
      {
        assert l.path[..|below|] == below;
        assert below[|path|] == ChildKey(t, i);
      }
    }
  }

  predicate DistinctPaths(leaves: seq<Leaf>) {
    forall a, b :: 0 <= a < b < |leaves| ==> leaves[a].path != leaves[b].path
  }

  lemma {:induction false} PathsAreDistinct(t: Tree, path: Path)
    requires WellFormed(t)
    ensures DistinctPaths(Collect(t, path))
    decreases t, Arity(t) + 1
  {
    if !t.Str? {
      PathsAreDistinctFrom(t, 0, path);
    }
  }

  lemma {:induction false} PathsAreDistinctFrom(t: Tree, i: nat, path: Path)
    requires WellFormed(t)
    ensures DistinctPaths(CollectFrom(t, i, path))
    decreases t, Arity(t) - i
  {
    if i < Arity(t) {
      var below := path + [ChildKey(t, i)];
      var first, rest := Collect(Child(t, i), below), CollectFrom(t, i + 1, path);
      PathsAreDistinct(Child(t, i), below);
      PathsAreDistinctFrom(t, i + 1, path);
      LeavesBelow(Child(t, i), below);
      LeavesBelowChildren(t, i + 1, path);
      forall a, b | 0 <= a < |first| && 0 <= b < |rest| ensures first[a].path != rest[b].path {
        assert first[a] in first && rest[b] in rest;
        assert first[a].path[..|below|] == below && below[|path|] == ChildKey(t, i);
      }
    }
  }

  predicate HasLeaf(leaves: seq<Leaf>, path: Path) {
    exists i :: 0 <= i < |leaves| && leaves[i].path == path
  }

  // ---------------------------------------------------------------- replacing below the inner nodes

  /** No key of the mapping is the path of a node that is not a string. */
  predicate AvoidsInner(t: Tree, path: Path, m: map<Path, string>) {
    t.Str? ||
    (path !in m && forall i :: 0 <= i < Arity(t) ==> AvoidsInner(Child(t, i), path + [ChildKey(t, i)], m))
  }

  lemma {:induction false} ReplaceChildren(t: Tree, path: Path, m: map<Path, string>)
    requires !t.Str? && path !in m
    ensures var r := Replace(t, path, m);
            && !r.Str? && Arity(r) == Arity(t) && (t.List? <==> r.List?)
            && (Arity(t) == 0 ==> r == t)
            && (forall i :: 0 <= i < Arity(t) ==> ChildKey(r, i) == ChildKey(t, i))
            && forall i :: 0 <= i < Arity(t) ==>
                 Child(r, i) == Replace(Child(t, i), path + [ChildKey(t, i)], m)
  {
  }

  function Mapped(leaves: seq<Leaf>, m: map<Path, string>): seq<Leaf> {
    seq(|leaves|, i requires 0 <= i < |leaves| =>
          Leaf(leaves[i].path, if leaves[i].path in m then m[leaves[i].path] else leaves[i].text))
  }

  lemma {:induction false} CollectMapped(t: Tree, path: Path, m: map<Path, string>)
    requires AvoidsInner(t, path, m)
    ensures Collect(Replace(t, path, m), path) == Mapped(Collect(t, path), m)
    decreases t, Arity(t) + 1
  {
    if !t.Str? {
      ReplaceChildren(t, path, m);
      CollectMappedFrom(t, 0, path, m);
    }
  }

  lemma {:induction false} CollectMappedFrom(t: Tree, i: nat, path: Path, m: map<Path, string>)
    requires !t.Str? && AvoidsInner(t, path, m)
    ensures CollectFrom(Replace(t, path, m), i, path) == Mapped(CollectFrom(t, i, path), m)
    decreases t, Arity(t) - i
  {
    hide Replace, Collect;
    ReplaceChildren(t, path, m);
    if i < Arity(t) {
      CollectMapped(Child(t, i), path + [ChildKey(t, i)], m);
      CollectMappedFrom(t, i + 1, path, m);
    }
  }

  /** A leaf of the replaced tree whose path is no leaf path of the tree. */
  lemma {:induction false} NewLeaf(t: Tree, path: Path, m: map<Path, string>) returns (l: Leaf)
    requires WellFormed(t) && !AvoidsInner(t, path, m)
    ensures l in Collect(Replace(t, path, m), path) && path <= l.path && !HasLeaf(Collect(t, path), l.path)
    decreases t
  {
    LeavesBelow(t, path);
    if path in m {
      l := Leaf(path, m[path]);
      assert forall k :: 0 <= k < |Collect(t, path)| ==> Collect(t, path)[k] in Collect(t, path);
    } else {
      var i :| 0 <= i < Arity(t) && !AvoidsInner(Child(t, i), path + [ChildKey(t, i)], m);
      l := NewLeaf(Child(t, i), path + [ChildKey(t, i)], m);
      NewLeafStaysNew(t, path, m, i, l);
    }
  }

  lemma {:induction false} NewLeafStaysNew(t: Tree, path: Path, m: map<Path, string>, i: nat, l: Leaf)
    requires WellFormed(t) && !t.Str? && path !in m && i < Arity(t)
    requires var below := path + [ChildKey(t, i)];
             && l in Collect(Replace(Child(t, i), below, m), below) && below <= l.path
             && !HasLeaf(Collect(Child(t, i), below), l.path)
    ensures l in Collect(Replace(t, path, m), path) && path <= l.path && !HasLeaf(Collect(t, path), l.path)
  {
    hide Collect, Replace, CollectFrom;
    var r := Replace(t, path, m);
    var below := path + [ChildKey(t, i)];
    ReplaceChildren(t, path, m);
    CollectSplit(r, path, 0);
    CollectSplit(t, path, 0);
    InChildIffInTree(r, path, 0, i, l);
    assert l.path[..|below|] == below && below[|path|] == ChildKey(t, i);
    forall k | 0 <= k < |Collect(t, path)| ensures Collect(t, path)[k].path != l.path {
      var other := Collect(t, path)[k];
      if other.path == l.path {
        BelongsToChild(t, path, 0, i, other);
      }
    }
  }

  lemma {:induction false} InChildIffInTree(t: Tree, path: Path, from: nat, i: nat, l: Leaf)
    requires from <= i < Arity(t) && l in Collect(Child(t, i), path + [ChildKey(t, i)])
    ensures l in CollectFrom(t, from, path)
    decreases i - from
  {
    if from < i {
      InChildIffInTree(t, path, from + 1, i, l);
    }
  }

  /** A collected leaf below child i was collected from child i. */
  lemma {:induction false} BelongsToChild(t: Tree, path: Path, from: nat, i: nat, l: Leaf)
    requires WellFormed(t) && from <= i < Arity(t) && l in CollectFrom(t, from, path)
    requires path + [ChildKey(t, i)] <= l.path
    ensures l in Collect(Child(t, i), path + [ChildKey(t, i)])
    decreases i - from
  {
    var below := path + [ChildKey(t, i)];
    assert l.path[..|below|] == below && below[|path|] == ChildKey(t, i) == l.path[|path|];
    if l in CollectFrom(t, from + 1, path) {
      LeavesBelowChildren(t, from + 1, path);
      if from < i {
        BelongsToChild(t, path, from + 1, i, l);
      }
    } else {
      var first := path + [ChildKey(t, from)];
      LeavesBelow(Child(t, from), first);
      assert l.path[..|first|] == first && first[|path|] == ChildKey(t, from);
    }
  }

  /**
   * Collecting from the replaced tree gives the same paths in the same order with the mapped
   * texts, exactly when no mapped path is that of an inner node.
   */
  lemma {:induction false} CollectMappedIff(t: Tree, m: map<Path, string>)
    requires WellFormed(t)
    ensures Collect(Replace(t, [], m), []) == Mapped(Collect(t, []), m) <==> AvoidsInner(t, [], m)
  {
    hide Collect, Replace, AvoidsInner;
    if AvoidsInner(t, [], m) {
      CollectMapped(t, [], m);
    } else {
      var l := NewLeaf(t, [], m);
      var replaced, mapped := Collect(Replace(t, [], m), []), Mapped(Collect(t, []), m);
      var k :| 0 <= k < |replaced| && replaced[k] == l;
      assert k < |mapped| ==> mapped[k].path == Collect(t, [])[k].path != l.path;
    }
  }

  /** Mappings whose keys are leaf paths avoid the inner nodes. */
  lemma {:induction false} LeafKeysAvoidInner(t: Tree, path: Path, m: map<Path, string>)
    requires WellFormed(t)
    requires forall k :: k in m && path <= k ==> HasLeaf(Collect(t, path), k)
    ensures AvoidsInner(t, path, m)
    decreases t
  {
    if !t.Str? {
      LeavesBelow(t, path);
      assert path !in m by {
        assert forall j :: 0 <= j < |Collect(t, path)| ==> Collect(t, path)[j] in Collect(t, path);
      }
      forall i | 0 <= i < Arity(t) ensures AvoidsInner(Child(t, i), path + [ChildKey(t, i)], m) {
        var below := path + [ChildKey(t, i)];
        forall k | k in m && below <= k ensures HasLeaf(Collect(Child(t, i), below), k) {
          assert path <= k;
          var j :| 0 <= j < |Collect(t, path)| && Collect(t, path)[j].path == k;
          BelongsToChild(t, path, 0, i, Collect(t, path)[j]);
        }
        LeafKeysAvoidInner(Child(t, i), below, m);
      }
    }
  }

  // ---------------------------------------------------------------- mappings from leaves

  /** A dictionary built from (path, text) pairs; later pairs win. */
  function MapOf(leaves: seq<Leaf>): map<Path, string> {
    if leaves == [] then map[]
    else MapOf(leaves[..|leaves| - 1])[leaves[|leaves| - 1].path := leaves[|leaves| - 1].text]
  }

  lemma {:induction false} MapOfKeys(leaves: seq<Leaf>, path: Path)
    ensures path in MapOf(leaves) <==> HasLeaf(leaves, path)
  {
    if leaves != [] {
      var front := leaves[..|leaves| - 1];
      MapOfKeys(front, path);
      if HasLeaf(front, path) {
        var i :| 0 <= i < |front| && front[i].path == path;
        assert leaves[i].path == path;
      }
      assert leaves[|leaves| - 1].path == path ==> HasLeaf(leaves, path);
      if HasLeaf(leaves, path) {
        var i :| 0 <= i < |leaves| && leaves[i].path == path;
        assert i < |front| ==> front[i].path == path;
      }
    }
  }

  lemma {:induction false} MapOfAt(leaves: seq<Leaf>, i: nat)
    requires DistinctPaths(leaves) && i < |leaves|
    ensures leaves[i].path in MapOf(leaves) && MapOf(leaves)[leaves[i].path] == leaves[i].text
    decreases |leaves|
  {
    if i < |leaves| - 1 {
      MapOfAt(leaves[..|leaves| - 1], i);
    }
  }

  lemma {:induction false} ReplaceBySame(t: Tree, path: Path, m: map<Path, string>)
    requires AvoidsInner(t, path, m)
    requires forall l :: l in Collect(t, path) && l.path in m ==> m[l.path] == l.text
    ensures Replace(t, path, m) == t
    decreases t
  {
    if t.Str? {
      assert Leaf(path, t.text) in Collect(t, path);
    } else {
      var r := Replace(t, path, m);
      ReplaceChildren(t, path, m);
      forall i | 0 <= i < Arity(t) ensures Child(r, i) == Child(t, i) {
        var below := path + [ChildKey(t, i)];
        forall l | l in Collect(Child(t, i), below) ensures l in Collect(t, path) {
          InChildIffInTree(t, path, 0, i, l);
        }
        ReplaceBySame(Child(t, i), below, m);
      }
      SameChildrenSameTree(r, t);
    }
  }

  lemma {:induction false} SameChildrenSameTree(r: Tree, t: Tree)
    requires !t.Str? && !r.Str? && (t.List? <==> r.List?) && Arity(r) == Arity(t) && (Arity(t) == 0 ==> r == t)
    requires forall i :: 0 <= i < Arity(t) ==> ChildKey(r, i) == ChildKey(t, i) && Child(r, i) == Child(t, i)
    ensures r == t
  {
    if Arity(t) > 0 {
      if t.List? {
        assert forall i :: 0 <= i < |t.items| ==> Child(r, i) == Child(t, i) && r.items[i] == t.items[i];
        assert r.items == t.items;
      } else {
        assert forall i :: 0 <= i < |t.fields| ==>
            ChildKey(r, i) == ChildKey(t, i) && Child(r, i) == Child(t, i) && r.fields[i] == t.fields[i];
        assert r.fields == t.fields;
      }
    }
  }

  /** Putting the collected strings back gives the tree back. */
  lemma {:induction false} ReplaceUndoesCollect(t: Tree)
    requires WellFormed(t)
    ensures Replace(t, [], MapOf(Collect(t, []))) == t
  {
    hide Collect, Replace, AvoidsInner, MapOf, WellFormed;
    var leaves := Collect(t, []);
    var m := MapOf(leaves);
    PathsAreDistinct(t, []);
    forall k: Path | k in m ensures HasLeaf(leaves, k) {
      MapOfKeys(leaves, k);
    }
    LeafKeysAvoidInner(t, [], m);
    forall l | l in leaves && l.path in m ensures m[l.path] == l.text {
      var i :| 0 <= i < |leaves| && leaves[i] == l;
      MapOfAt(leaves, i);
    }
    ReplaceBySame(t, [], m);
  }
}
