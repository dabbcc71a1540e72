/**
 * The recursive merge of JSON request parameters, and the paths it reports as overridden.
 * Objects keep the order of their fields; their equality is that of Python dictionaries,
 * given by a denotation into maps.
 */
module DeepMerge {
  import opened BatchTypes

  datatype Json =
    | Null
    | Bool(b: bool)
    | Num(n: real)
    | Str(s: string)
    | Arr(items: seq<Json>)
    | Obj(fields: Fields)

  datatype Field = Field(key: string, value: Json)

  type Fields = seq<Field>

  /** Meaning of a value: truth values equal the numbers 1 and 0, objects are maps. */
  datatype Val = VNull | VNum(n: real) | VStr(s: string) | VArr(items: seq<Val>) | VObj(m: map<string, Val>)

  function Den(j: Json): Val {
    match j
    case Null => VNull
    case Bool(b) => VNum(if b then 1.0 else 0.0)
    case Num(n) => VNum(n)
    case Str(s) => VStr(s)
    case Arr(items) => VArr(seq(|items|, i requires 0 <= i < |items| => Den(items[i])))
    case Obj(fields) => VObj(DenFields(fields))
  }

  function DenFields(fs: Fields): map<string, Val> {
    if fs == [] then map[]
    else DenFields(fs[..|fs| - 1])[fs[|fs| - 1].key := Den(fs[|fs| - 1].value)]
  }

  /** The position of a key, or the length. */
  function Find(fs: Fields, key: string): (i: nat)
    ensures i <= |fs|
    ensures i < |fs| ==> fs[i].key == key
    ensures forall j :: 0 <= j < i ==> fs[j].key != key
  {
    if fs == [] then 0 else if fs[0].key == key then 0 else Find(fs[1..], key) + 1
  }

  /** Assigning to a key of a dictionary: in place, or appended. */
  function Put(fs: Fields, key: string, value: Json): Fields {
    var i := Find(fs, key);
    if i < |fs| then fs[i := Field(key, value)] else fs + [Field(key, value)]
  }

  /** The keys of an object are distinct, on all levels. */
  predicate WellFormed(fs: Fields) {
    (forall i, j :: 0 <= i < j < |fs| ==> fs[i].key != fs[j].key) &&
    forall i :: 0 <= i < |fs| ==> fs[i].value.Obj? ==> WellFormed(fs[i].value.fields)
  }

  // ---------------------------------------------------------------- merging

  function PathTo(prefix: string, key: string): string {
    if prefix == "" then key else prefix + "." + key
  }

  function MergeValue(current: Option<Json>, value: Json): Json
    decreases value
  {
    if value.Obj? && current.Some? && current.value.Obj? then Obj(Merge(current.value.fields, value.fields)) else value
  }

  function Lookup(fs: Fields, key: string): Option<Json> {
    if Find(fs, key) < |fs| then Some(fs[Find(fs, key)].value) else None
  }

  function Merge(base: Fields, over: Fields): Fields
    decreases over
  {
    if over == [] then base
    else
      var m := Merge(base, over[..|over| - 1]);
      var f := over[|over| - 1];
      Put(m, f.key, MergeValue(Lookup(m, f.key), f.value))
  }

  /** The conflicts one override field adds, given the value it meets. */
  function FieldConflicts(current: Option<Json>, f: Field, path: string): seq<string>
    decreases f.value
  {
    if current.None? then []
    else if f.value.Obj? && current.value.Obj? then Conflicts(current.value.fields, f.value.fields, path)
    else if Den(current.value) != Den(f.value) then [path]
    else []
  }

  function Conflicts(base: Fields, over: Fields, prefix: string): seq<string>
    decreases over
  {
    if over == [] then []
    else
      var m := Merge(base, over[..|over| - 1]);
      var f := over[|over| - 1];
      Conflicts(base, over[..|over| - 1], prefix) + FieldConflicts(Lookup(m, f.key), f, PathTo(prefix, f.key))
  }

  lemma {:induction false} NothingMerged(base: Fields, prefix: string)
    ensures Merge(base, []) == base && Conflicts(base, [], prefix) == []
  {
  }

  lemma {:induction false} OneMoreField(base: Fields, over: Fields, f: Field, prefix: string)
    ensures var m := Merge(base, over);
            && Merge(base, over + [f]) == Put(m, f.key, MergeValue(Lookup(m, f.key), f.value))
            && Conflicts(base, over + [f], prefix) ==
               Conflicts(base, over, prefix) + FieldConflicts(Lookup(m, f.key), f, PathTo(prefix, f.key))
  {
    assert (over + [f])[..|over|] == over;
  }

  method DeepMerge(base: Fields, over: Fields, prefix: string) returns (merged: Fields, conflicts: seq<string>)
    ensures merged == Merge(base, over)
    ensures conflicts == Conflicts(base, over, prefix)
    decreases over
  {
    hide Merge, Conflicts, Find, Den;
    merged, conflicts := base, [];
    NothingMerged(base, prefix);
    for i := 0 to |over|
      invariant merged == Merge(base, over[..i])
      invariant conflicts == Conflicts(base, over[..i], prefix)
    {
      assert over[..i + 1] == over[..i] + [over[i]];
      OneMoreField(base, over[..i], over[i], prefix);
      var key, value := over[i].key, over[i].value;
      var path := if prefix != "" then prefix + "." + key else key;
      var current := Lookup(merged, key);
      if value.Obj? && current.Some? && current.value.Obj? {
        var inner, nested := DeepMerge(current.value.fields, value.fields, path);
        merged := Put(merged, key, Obj(inner));
        conflicts := conflicts + nested;
      } else {
        if current.Some? && Den(current.value) != Den(value) {
          conflicts := conflicts + [path];
        }
        merged := Put(merged, key, value);
      }
    }
    assert over[..|over|] == over;
  }

  // ---------------------------------------------------------------- specification on maps

  /** The override wins, except that two objects are merged key by key. */
  function MergeVal(b: Val, o: Val): Val
    decreases o
  {
    if b.VObj? && o.VObj? then
      VObj(map k | k in b.m.Keys + o.m.Keys ::
             if k !in o.m then b.m[k] else if k in b.m then MergeVal(b.m[k], o.m[k]) else o.m[k])
    else o
  }

  predicate DistinctKeys(fs: Fields) {
    forall i, j :: 0 <= i < j < |fs| ==> fs[i].key != fs[j].key
  }

  lemma {:induction false} DenLookup(fs: Fields, key: string)
    requires DistinctKeys(fs)
    ensures key in DenFields(fs) <==> Lookup(fs, key).Some?
    ensures key in DenFields(fs) ==> DenFields(fs)[key] == Den(Lookup(fs, key).value)
  {
    hide Den, Find;
    if fs != [] {
      var front, last := fs[..|fs| - 1], fs[|fs| - 1];
      DenLookup(front, key);
      FindInFront(front, last, key);
      assert fs == front + [last];
    }
  }

  /** When scalars are equal: a truth value also equals the number one or zero. */
  lemma {:induction false} ScalarsEqualIff(a: Json, b: Json)
    requires !a.Arr? && !a.Obj? && !b.Arr? && !b.Obj?
    ensures Den(a) == Den(b) <==>
            || a == b
            || (a.Bool? && b == Num(if a.b then 1.0 else 0.0))
            || (b.Bool? && a == Num(if b.b then 1.0 else 0.0))
  {
  }

  lemma {:induction false} ArraysEqualIff(a: seq<Json>, b: seq<Json>)
    ensures Den(Arr(a)) == Den(Arr(b)) <==> |a| == |b| && forall i :: 0 <= i < |a| ==> Den(a[i]) == Den(b[i])
  {
    assert forall i :: 0 <= i < |a| ==> Den(Arr(a)).items[i] == Den(a[i]);
    assert forall i :: 0 <= i < |b| ==> Den(Arr(b)).items[i] == Den(b[i]);
  }

  /** Objects are equal when they have the same keys with equal values, in whatever order. */
  lemma {:induction false} ObjectsEqualIff(a: Fields, b: Fields)
    requires DistinctKeys(a) && DistinctKeys(b)
    ensures Den(Obj(a)) == Den(Obj(b)) <==> forall key :: SameAt(a, b, key)
  {
    hide Find, Lookup;
    forall key ensures SameAt(a, b, key) <==>
                       (key in DenFields(a) <==> key in DenFields(b)) &&
                       (key in DenFields(a) && key in DenFields(b) ==> DenFields(a)[key] == DenFields(b)[key])
    {
      DenLookup(a, key);
      DenLookup(b, key);
    }
  }

  predicate SameAt(a: Fields, b: Fields, key: string) {
    match (Lookup(a, key), Lookup(b, key))
    case (None, None) => true
    case (Some(v), Some(w)) => Den(v) == Den(w)
    case _ => false
  }

  lemma {:induction false} FindInFront(front: Fields, last: Field, key: string)
    ensures Find(front + [last], key) ==
            if Find(front, key) < |front| then Find(front, key) else if last.key == key then |front| else |front| + 1
  {
    if front == [] {
      assert front + [last] == [last];
    } else {
      assert (front + [last])[1..] == front[1..] + [last];
      FindInFront(front[1..], last, key);
    }
  }

  lemma {:induction false} DenAppend(front: Fields, last: Field)
    ensures DenFields(front + [last]) == DenFields(front)[last.key := Den(last.value)]
  {
    assert (front + [last])[..|front|] == front;
  }

  lemma {:induction false} PutDen(fs: Fields, key: string, value: Json)
    requires DistinctKeys(fs)
    ensures DenFields(Put(fs, key, value)) == DenFields(fs)[key := Den(value)]
  {
    hide Den, DenFields, Find;
    var i := Find(fs, key);
    if i < |fs| {
      ReplaceDen(fs, i, value);
    } else {
      DenAppend(fs, Field(key, value));
    }
  }

  lemma {:induction false} ReplaceDen(fs: Fields, i: nat, value: Json)
    requires DistinctKeys(fs) && i < |fs|
    ensures DenFields(fs[i := Field(fs[i].key, value)]) == DenFields(fs)[fs[i].key := Den(value)]
  {
    hide Den, DenFields;
    var f := Field(fs[i].key, value);
    var front, last := fs[..|fs| - 1], fs[|fs| - 1];
    assert fs == front + [last];
    DenAppend(front, last);
    if i == |fs| - 1 {
      assert fs[i := f] == front + [f];
      DenAppend(front, f);
    } else {
      assert fs[i := f] == front[i := f] + [last];
      DenAppend(front[i := f], last);
      ReplaceDen(front, i, value);
    }
  }

  lemma {:induction false} PutWellFormed(fs: Fields, key: string, value: Json)
    requires WellFormed(fs) && (value.Obj? ==> WellFormed(value.fields))
    ensures WellFormed(Put(fs, key, value))
  {
    assert DistinctKeys(fs);
    assert DistinctKeys(Put(fs, key, value));
  }

  lemma {:induction false} LookupPut(fs: Fields, key: string, value: Json, other: string)
    ensures Lookup(Put(fs, key, value), other) == if other == key then Some(value) else Lookup(fs, other)
  {
    var i := Find(fs, key);
    if i < |fs| {
      FindReplaced(fs, i, value, other);
    } else {
      FindInFront(fs, Field(key, value), other);
    }
  }

  lemma {:induction false} FindReplaced(fs: Fields, i: nat, value: Json, other: string)
    requires i < |fs|
    ensures Find(fs[i := Field(fs[i].key, value)], other) == Find(fs, other)
  {
    var fs' := fs[i := Field(fs[i].key, value)];
    if i > 0 {
      assert fs'[1..] == fs[1..][i - 1 := Field(fs[i].key, value)];
      FindReplaced(fs[1..], i - 1, value, other);
    } else {
      assert fs'[1..] == fs[1..];
    }
  }

  /** A key the override does not hold keeps its value. */
  lemma {:induction false} LookupUntouched(base: Fields, over: Fields, key: string)
    requires forall i :: 0 <= i < |over| ==> over[i].key != key
    ensures Lookup(Merge(base, over), key) == Lookup(base, key)
  {
    if over != [] {
      var front, f := over[..|over| - 1], over[|over| - 1];
      LookupUntouched(base, front, key);
      LookupPut(Merge(base, front), f.key, MergeValue(Lookup(Merge(base, front), f.key), f.value), key);
    }
  }

  lemma {:induction false} MergeValOneMore(b: map<string, Val>, o: map<string, Val>, key: string, v: Val)
    requires key !in o
    ensures MergeVal(VObj(b), VObj(o[key := v])) ==
            VObj(MergeVal(VObj(b), VObj(o)).m[key := if key in b then MergeVal(b[key], v) else v])
  {
  }

  lemma {:induction false} LookupWellFormed(fs: Fields, key: string)
    requires WellFormed(fs) && Lookup(fs, key).Some? && Lookup(fs, key).value.Obj?
    ensures WellFormed(Lookup(fs, key).value.fields)
  {
  }

  lemma {:induction false} DenKeyAbsent(fs: Fields, key: string)
    requires DistinctKeys(fs) && forall i :: 0 <= i < |fs| ==> fs[i].key != key
    ensures key !in DenFields(fs)
  {
    DenLookup(fs, key);
  }

  /** The loop computes the merge of the denoted maps. */
  lemma {:induction false} MergeDenotes(base: Fields, over: Fields)
    requires WellFormed(base) && WellFormed(over)
    ensures WellFormed(Merge(base, over))
    ensures Den(Obj(Merge(base, over))) == MergeVal(Den(Obj(base)), Den(Obj(over)))
    decreases over
  {
    if over != [] {
      var front, f := over[..|over| - 1], over[|over| - 1];
      var m := Merge(base, front);
      MergeDenotes(base, front);
      LookupUntouched(base, front, f.key);
      DenLookup(base, f.key);
      DenKeyAbsent(front, f.key);
      var v := MergeValue(Lookup(m, f.key), f.value);
      MergeValueDenotes(Lookup(base, f.key), base, f);
      PutDen(m, f.key, v);
      PutWellFormed(m, f.key, v);
      MergeValOneMore(DenFields(base), DenFields(front), f.key, Den(f.value));
    }
  }

  lemma {:induction false} MergeValueDenotes(current: Option<Json>, base: Fields, f: Field)
    requires WellFormed(base) && current == Lookup(base, f.key)
    requires f.value.Obj? ==> WellFormed(f.value.fields)
    ensures var v := MergeValue(current, f.value);
            && (v.Obj? ==> WellFormed(v.fields))
            && Den(v) == if current.Some? then MergeVal(Den(current.value), Den(f.value)) else Den(f.value)
    decreases f.value
  {
    if f.value.Obj? && current.Some? && current.value.Obj? {
      LookupWellFormed(base, f.key);
      MergeDenotes(current.value.fields, f.value.fields);
    }
  }

  // ---------------------------------------------------------------- the order of the keys

  function Keys(fs: Fields): (keys: seq<string>)
    ensures |keys| == |fs| && forall i :: 0 <= i < |fs| ==> keys[i] == fs[i].key
  {
    seq(|fs|, i requires 0 <= i < |fs| => fs[i].key)
  }

  /** The keys of the override that the base does not have, in order. */
  function NewKeys(base: Fields, over: Fields): seq<string> {
    if over == [] then []
    else
      var front, key := NewKeys(base, over[..|over| - 1]), over[|over| - 1].key;
      if key in Keys(base) || key in front then front else front + [key]
  }

  /** Merging keeps the keys of the base in their places and appends the new ones. */
  lemma {:induction false} MergeKeepsOrder(base: Fields, over: Fields)
    ensures Keys(Merge(base, over)) == Keys(base) + NewKeys(base, over)
  {
    hide Find, MergeValue;
    if over != [] {
      var front, f := over[..|over| - 1], over[|over| - 1];
      var m := Merge(base, front);
      MergeKeepsOrder(base, front);
      PutKeys(m, f.key, MergeValue(Lookup(m, f.key), f.value));
      assert f.key in Keys(m) <==> f.key in Keys(base) || f.key in NewKeys(base, front);
    }
  }

  lemma {:induction false} PutKeys(fs: Fields, key: string, value: Json)
    ensures Keys(Put(fs, key, value)) == if key in Keys(fs) then Keys(fs) else Keys(fs) + [key]
  {
    hide Find;
    var i := Find(fs, key);
    assert i < |fs| ==> Keys(fs)[i] == key;
    if key in Keys(fs) {
      var j :| 0 <= j < |fs| && Keys(fs)[j] == key;
      assert fs[j].key == key;
    }
  }

  // ---------------------------------------------------------------- conflict paths

  /** The reported paths as lists of keys. */
  function ConflictPaths(base: Fields, over: Fields): seq<seq<string>>
    decreases over
  {
    if over == [] then []
    else
      var m := Merge(base, over[..|over| - 1]);
      var f := over[|over| - 1];
      ConflictPaths(base, over[..|over| - 1]) + FieldPaths(Lookup(m, f.key), f)
  }

  function FieldPaths(current: Option<Json>, f: Field): seq<seq<string>>
    decreases f.value
  {
    if current.None? then []
    else if f.value.Obj? && current.value.Obj? then
      Under(f.key, ConflictPaths(current.value.fields, f.value.fields))
    else if Den(current.value) != Den(f.value) then [[f.key]]
    else []
  }

  function Under(key: string, paths: seq<seq<string>>): (r: seq<seq<string>>)
    ensures |r| == |paths|
  {
    seq(|paths|, i requires 0 <= i < |paths| => [key] + paths[i])
  }

  function Render(prefix: string, path: seq<string>): string
    decreases |path|
  {
    if path == [] then prefix else Render(PathTo(prefix, path[0]), path[1..])
  }

  function RenderAll(prefix: string, paths: seq<seq<string>>): (r: seq<string>)
    ensures |r| == |paths|
  {
    seq(|paths|, i requires 0 <= i < |paths| => Render(prefix, paths[i]))
  }

  /** The reported strings are the dotted renderings of the paths, in order. */
  lemma {:induction false} ConflictsAreRendered(base: Fields, over: Fields, prefix: string)
    ensures Conflicts(base, over, prefix) == RenderAll(prefix, ConflictPaths(base, over))
    decreases over
  {
    hide Merge, Lookup, FieldConflicts, FieldPaths, Render;
    if over != [] {
      var front, f := over[..|over| - 1], over[|over| - 1];
      var current := Lookup(Merge(base, front), f.key);
      ConflictsAreRendered(base, front, prefix);
      FieldConflictsAreRendered(current, f, prefix);
    }
  }

  lemma {:induction false} FieldConflictsAreRendered(current: Option<Json>, f: Field, prefix: string)
    ensures FieldConflicts(current, f, PathTo(prefix, f.key)) == RenderAll(prefix, FieldPaths(current, f))
    decreases f.value
  {
    if current.Some? {
      if f.value.Obj? && current.value.Obj? {
        var inner := ConflictPaths(current.value.fields, f.value.fields);
        ConflictsAreRendered(current.value.fields, f.value.fields, PathTo(prefix, f.key));
        forall i | 0 <= i < |inner|
          ensures Render(prefix, [f.key] + inner[i]) == Render(PathTo(prefix, f.key), inner[i])
        {
          assert ([f.key] + inner[i])[1..] == inner[i];
        }
      } else {
        assert Render(prefix, [f.key]) == Render(PathTo(prefix, f.key), []) by {
          assert [f.key][1..] == [];
        }
      }
    }
  }

  /** The keys of a path with a dot between any two. */
  function Dotted(path: seq<string>): string
    requires path != []
  {
    if |path| == 1 then path[0] else path[0] + ("." + Dotted(path[1..]))
  }

  /** A path is rendered with dots, below its prefix if that is not empty; empty keys at the front vanish. */
  lemma {:induction false} RenderIsDotted(prefix: string, path: seq<string>)
    requires path != []
    ensures prefix != "" ==> Render(prefix, path) == prefix + ("." + Dotted(path))
    ensures prefix == "" && path[0] != "" ==> Render(prefix, path) == Dotted(path)
    ensures prefix == "" && path[0] == "" ==> Render(prefix, path) == Render("", path[1..])
    decreases |path|
  {
    var p := PathTo(prefix, path[0]);
    if |path| == 1 {
      assert Render(p, path[1..]) == p;
    } else {
      RenderIsDotted(p, path[1..]);
    }
  }

  /** What is reported at the top: the conflicting paths, in order, with dots between their keys. */
  lemma {:induction false} ConflictsAreDotted(base: Fields, over: Fields, i: nat)
    requires i < |ConflictPaths(base, over)|
    ensures var path := ConflictPaths(base, over)[i];
            && |Conflicts(base, over, "")| == |ConflictPaths(base, over)|
            && (path != [] && path[0] != "" ==> Conflicts(base, over, "")[i] == Dotted(path))
  {
    hide Conflicts, ConflictPaths, Dotted;
    ConflictsAreRendered(base, over, "");
    if ConflictPaths(base, over)[i] != [] {
      RenderIsDotted("", ConflictPaths(base, over)[i]);
    }
  }

  /** Both sides hold a value at the path, not both objects, and the values differ. */
  predicate ConflictAt(b: map<string, Val>, o: map<string, Val>, path: seq<string>)
    decreases |path|
  {
    |path| >= 1 && path[0] in b && path[0] in o &&
    if b[path[0]].VObj? && o[path[0]].VObj? then ConflictAt(b[path[0]].m, o[path[0]].m, path[1..])
    else |path| == 1 && b[path[0]] != o[path[0]]
  }

  ghost predicate ConflictFree(b: map<string, Val>, o: map<string, Val>) {
    forall path :: !ConflictAt(b, o, path)
  }

  lemma {:induction false} InUnder(key: string, paths: seq<seq<string>>, path: seq<string>)
    ensures path in Under(key, paths) <==> path != [] && path[0] == key && path[1..] in paths
  {
    if path != [] && path[0] == key && path[1..] in paths {
      var i :| 0 <= i < |paths| && paths[i] == path[1..];
      assert Under(key, paths)[i] == path;
    }
    assert forall i :: 0 <= i < |paths| ==> Under(key, paths)[i][1..] == paths[i];
  }

  /** The reported paths are exactly the paths in conflict. */
  lemma {:induction false} ReportsExactly(base: Fields, over: Fields, path: seq<string>)
    requires WellFormed(base) && WellFormed(over)
    ensures path in ConflictPaths(base, over) <==> ConflictAt(DenFields(base), DenFields(over), path)
    decreases over
  {
    if over != [] {
      var front, f := over[..|over| - 1], over[|over| - 1];
      ReportsExactly(base, front, path);
      LookupUntouched(base, front, f.key);
      DenKeyAbsent(front, f.key);
      DenLookup(base, f.key);
      FieldReportsExactly(base, f, path);
    }
  }

  lemma {:induction false} FieldReportsExactly(base: Fields, f: Field, path: seq<string>)
    requires WellFormed(base) && (f.value.Obj? ==> WellFormed(f.value.fields))
    ensures path in FieldPaths(Lookup(base, f.key), f) <==>
            path != [] && path[0] == f.key && ConflictAt(DenFields(base), map[f.key := Den(f.value)], path)
    decreases f.value
  {
    var current := Lookup(base, f.key);
    DenLookup(base, f.key);
    if current.Some? {
      if f.value.Obj? && current.value.Obj? {
        LookupWellFormed(base, f.key);
        InUnder(f.key, ConflictPaths(current.value.fields, f.value.fields), path);
        if path != [] {
          ReportsExactly(current.value.fields, f.value.fields, path[1..]);
        }
      } else {
        assert path in [[f.key]] <==> path == [f.key];
      }
    }
  }

  // ---------------------------------------------------------------- laws

  lemma {:induction false} NoPathsNoConflicts(base: Fields, over: Fields, prefix: string)
    requires WellFormed(base) && WellFormed(over)
    ensures Conflicts(base, over, prefix) == [] <==>
            ConflictFree(DenFields(base), DenFields(over))
  {
    ConflictsAreRendered(base, over, prefix);
    var paths := ConflictPaths(base, over);
    if paths != [] {
      ReportsExactly(base, over, paths[0]);
      assert paths[0] in paths;
    }
    forall path ensures path in paths <==> ConflictAt(DenFields(base), DenFields(over), path) {
      ReportsExactly(base, over, path);
    }
  }

  lemma {:induction false} EmptyBase(over: Fields)
    requires WellFormed(over)
    ensures Merge([], over) == over
  {
    if over != [] {
      var front, f := over[..|over| - 1], over[|over| - 1];
      EmptyBase(front);
      assert Find(front, f.key) == |front|;
      assert front + [f] == over;
    }
  }

  /** The empty object is neutral on both sides, and reports nothing. */
  lemma {:induction false} EmptyIsIdentity(fs: Fields, prefix: string)
    requires WellFormed(fs)
    ensures Merge(fs, []) == fs && Conflicts(fs, [], prefix) == []
    ensures Merge([], fs) == fs && Conflicts([], fs, prefix) == []
  {
    EmptyBase(fs);
    assert WellFormed([]);
    NoPathsNoConflicts([], fs, prefix);
  }

  lemma {:induction false} MergeAgain(b: Val, o: Val)
    ensures MergeVal(MergeVal(b, o), o) == MergeVal(b, o)
    decreases o
  {
    if b.VObj? && o.VObj? {
      var r := MergeVal(b, o);
      var r2 := MergeVal(r, o);
      forall k | k in r.m ensures r2.m[k] == r.m[k] {
        if k in o.m {
          if k in b.m {
            MergeAgain(b.m[k], o.m[k]);
          } else {
            MergeSelf(o.m[k]);
          }
        }
      }
      assert r2.m.Keys == r.m.Keys;
    } else {
      MergeSelf(o);
    }
  }

  lemma {:induction false} MergeSelf(o: Val)
    ensures MergeVal(o, o) == o
  {
    if o.VObj? {
      forall k | k in o.m ensures MergeVal(o.m[k], o.m[k]) == o.m[k] {
        MergeSelf(o.m[k]);
      }
      assert MergeVal(o, o).m == o.m;
    }
  }

  lemma {:induction false} NoConflictAfterMerge(b: Val, o: Val, path: seq<string>)
    requires b.VObj? && o.VObj?
    ensures !ConflictAt(MergeVal(b, o).m, o.m, path)
    decreases |path|
  {
    var r := MergeVal(b, o).m;
    if path != [] && path[0] in o.m {
      var k := path[0];
      if r[k].VObj? && o.m[k].VObj? {
        if k in b.m && b.m[k].VObj? {
          NoConflictAfterMerge(b.m[k], o.m[k], path[1..]);
        } else {
          NoConflictWithSelf(o.m[k].m, path[1..]);
        }
      }
    }
  }

  lemma {:induction false} NoConflictWithSelf(o: map<string, Val>, path: seq<string>)
    ensures !ConflictAt(o, o, path)
    decreases |path|
  {
    if path != [] && path[0] in o && o[path[0]].VObj? {
      NoConflictWithSelf(o[path[0]].m, path[1..]);
    }
  }

  /** Applying the same override again changes nothing and reports no conflict. */
  lemma {:induction false} ReapplyIsSilent(base: Fields, over: Fields, prefix: string)
    requires WellFormed(base) && WellFormed(over)
    ensures Den(Obj(Merge(Merge(base, over), over))) == Den(Obj(Merge(base, over)))
    ensures Conflicts(Merge(base, over), over, prefix) == []
  {
    MergeDenotes(base, over);
    MergeDenotes(Merge(base, over), over);
    MergeAgain(Den(Obj(base)), Den(Obj(over)));
    NoPathsNoConflicts(Merge(base, over), over, prefix);
    forall path ensures !ConflictAt(DenFields(Merge(base, over)), DenFields(over), path) {
      NoConflictAfterMerge(Den(Obj(base)), Den(Obj(over)), path);
    }
  }

  /** Everything the base says is still said: equal values, and objects extended. */
  predicate Extends(b: Val, r: Val)
    decreases b
  {
    if b.VObj? && r.VObj? then forall k :: k in b.m ==> k in r.m && Extends(b.m[k], r.m[k])
    else b == r
  }

  lemma {:induction false} ExtendsSelf(b: Val)
    ensures Extends(b, b)
  {
    if b.VObj? {
      forall k | k in b.m ensures Extends(b.m[k], b.m[k]) {
        ExtendsSelf(b.m[k]);
      }
    }
  }

  /** A path in conflict, when the merged value does not extend the base value. */
  lemma {:induction false} ConflictFound(b: Val, o: Val) returns (path: seq<string>)
    requires b.VObj? && o.VObj? && !Extends(b, MergeVal(b, o))
    ensures ConflictAt(b.m, o.m, path)
    decreases b
  {
    var r := MergeVal(b, o);
    var k :| k in b.m && !(k in r.m && Extends(b.m[k], r.m[k]));
    ExtendsSelf(b.m[k]);
    assert k in o.m;
    if b.m[k].VObj? && o.m[k].VObj? {
      var rest := ConflictFound(b.m[k], o.m[k]);
      path := [k] + rest;
      assert path[1..] == rest;
    } else {
      path := [k];
    }
  }

  lemma {:induction false} ConflictBreaksExtension(b: Val, o: Val, path: seq<string>)
    requires b.VObj? && o.VObj? && ConflictAt(b.m, o.m, path)
    ensures !Extends(b, MergeVal(b, o))
    decreases |path|
  {
    var k := path[0];
    var r := MergeVal(b, o);
    assert k in b.m && k in r.m;
    if b.m[k].VObj? && o.m[k].VObj? {
      ConflictBreaksExtension(b.m[k], o.m[k], path[1..]);
    }
  }

  lemma {:induction false} ExtensionIffNoConflictAt(b: Val, o: Val)
    requires b.VObj? && o.VObj?
    ensures Extends(b, MergeVal(b, o)) <==> ConflictFree(b.m, o.m)
  {
    hide Extends, MergeVal, ConflictAt;
    if !Extends(b, MergeVal(b, o)) {
      var path := ConflictFound(b, o);
      assert ConflictAt(b.m, o.m, path);
    } else {
      forall path ensures !ConflictAt(b.m, o.m, path) {
        if ConflictAt(b.m, o.m, path) {
          ConflictBreaksExtension(b, o, path);
        }
      }
    }
  }

  /** No conflict is reported if and only if the result extends the base. */
  lemma {:induction false} SilentIffExtends(base: Fields, over: Fields, prefix: string)
    requires WellFormed(base) && WellFormed(over)
    ensures Conflicts(base, over, prefix) == [] <==> Extends(Den(Obj(base)), Den(Obj(Merge(base, over))))
  {
    hide Conflicts, Merge, MergeVal, Extends, ConflictFree, DenFields, WellFormed;
    var b, o := Den(Obj(base)), Den(Obj(over));
    MergeDenotes(base, over);
    NoPathsNoConflicts(base, over, prefix);
    ExtensionIffNoConflictAt(b, o);
  }
}
