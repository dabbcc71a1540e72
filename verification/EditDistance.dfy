/**
 * The Levenshtein distance of the glossary's fuzzy matcher: the two-row loop computes the
 * recursive edit distance, which is the length of a shortest edit script and a metric.
 */
module EditDistance {

  function Min3(a: nat, b: nat, c: nat): nat {
    if a <= b && a <= c then a else if b <= c then b else c
  }

  function Front<T>(s: seq<T>): seq<T>
    requires s != []
  {
    s[..|s| - 1]
  }

  function Last<T>(s: seq<T>): T
    requires s != []
  {
    s[|s| - 1]
  }

  /** The edit distance, by the last characters. */
  function Dist(a: string, b: string): nat
    decreases |a| + |b|
  {
    if a == [] then |b|
    else if b == [] then |a|
    else Min3(Dist(Front(a), b) + 1, Dist(a, Front(b)) + 1,
              Dist(Front(a), Front(b)) + (if Last(a) == Last(b) then 0 else 1))
  }

  // ---------------------------------------------------------------- the two-row loop

  /** The row of distances of a prefix to all prefixes of `b`. */
  ghost predicate IsRow(row: seq<nat>, prefix: string, b: string) {
    |row| == |b| + 1 && forall j :: 0 <= j <= |b| ==> row[j] == Dist(prefix, b[..j])
  }

  method Levenshtein(s1: string, s2: string) returns (d: nat)
    ensures d == Dist(s1, s2)
    decreases |s2|
  {
    if |s1| < |s2| {
      d := Levenshtein(s2, s1);
      Symmetric(s1, s2);
      return;
    }
    if |s2| == 0 {
      return |s1|;
    }
    var previous: seq<nat> := seq(|s2| + 1, (j: nat) => j);
    for i := 0 to |s1|
      invariant IsRow(previous, s1[..i], s2)
    {
      var current := NextRow(previous, s1, i, s2);
      previous := current;
    }
    assert s1[..|s1|] == s1 && s2[..|s2|] == s2;
    d := previous[|s2|];
  }

  method NextRow(previous: seq<nat>, s1: string, i: nat, s2: string) returns (current: seq<nat>)
    requires i < |s1| && IsRow(previous, s1[..i], s2)
    ensures IsRow(current, s1[..i + 1], s2)
  {
    hide Dist;
    current := [i + 1];
    DistEmpty(s1[..i + 1], s2[..0]);
    for j := 0 to |s2|
      invariant |current| == j + 1
      invariant forall k :: 0 <= k <= j ==> current[k] == Dist(s1[..i + 1], s2[..k])
    {
      assert Front(s1[..i + 1]) == s1[..i];
      assert Front(s2[..j + 1]) == s2[..j];
      DistStep(s1[..i + 1], s2[..j + 1]);
      var insertions := previous[j + 1] + 1;
      var deletions := current[j] + 1;
      var substitutions := previous[j] + (if s1[i] != s2[j] then 1 else 0);
      current := current + [Min3(insertions, deletions, substitutions)];
    }
  }

  // ---------------------------------------------------------------- the metric laws

  lemma {:induction false} Symmetric(a: string, b: string)
    ensures Dist(a, b) == Dist(b, a)
    decreases |a| + |b|
  {
    if a != [] && b != [] {
      Symmetric(Front(a), b);
      Symmetric(a, Front(b));
      Symmetric(Front(a), Front(b));
    }
  }

  lemma {:induction false} Bounds(a: string, b: string)
    ensures Dist(a, b) >= |a| - |b| && Dist(a, b) >= |b| - |a|
    ensures Dist(a, b) <= |a| || Dist(a, b) <= |b|
    decreases |a| + |b|
  {
    if a != [] && b != [] {
      Bounds(Front(a), b);
      Bounds(a, Front(b));
      Bounds(Front(a), Front(b));
    }
  }

  lemma {:induction false} ZeroIffEqual(a: string, b: string)
    ensures Dist(a, b) == 0 <==> a == b
    decreases |a| + |b|
  {
    if a != [] && b != [] {
      ZeroIffEqual(Front(a), Front(b));
      assert a == Front(a) + [Last(a)] && b == Front(b) + [Last(b)];
    }
  }

  lemma {:induction false} DistEmpty(a: string, b: string)
    requires a == [] || b == []
    ensures Dist(a, b) == |a| + |b|
  {
  }

  lemma {:induction false} DistStep(a: string, b: string)
    requires a != [] && b != []
    ensures Dist(a, b) == Min3(Dist(Front(a), b) + 1, Dist(a, Front(b)) + 1,
                               Dist(Front(a), Front(b)) + (if Last(a) == Last(b) then 0 else 1))
  {
  }

  lemma {:induction false} Triangle(a: string, b: string, c: string)
    ensures Dist(a, c) <= Dist(a, b) + Dist(b, c)
    decreases |a| + |b| + |c|
  {
    hide Dist;
    if a == [] || b == [] || c == [] {
      if a == [] { DistEmpty(a, b); DistEmpty(a, c); }
      if b == [] { DistEmpty(a, b); DistEmpty(b, c); }
      if c == [] { DistEmpty(b, c); DistEmpty(a, c); }
      Bounds(a, b);
      Bounds(b, c);
      Bounds(a, c);
    } else {
      DistStep(a, b);
      DistStep(b, c);
      DistStep(a, c);
      Triangle(Front(a), b, c);
      Triangle(a, b, Front(c));
      Triangle(a, Front(b), c);
      Triangle(a, Front(b), Front(c));
      Triangle(Front(a), Front(b), c);
      Triangle(Front(a), Front(b), Front(c));
    }
  }

  // ---------------------------------------------------------------- edit scripts

  /** One edit of a single character at a position. */
  datatype Edit = Insert(at: nat, c: char) | Delete(at: nat) | Replace(at: nat, c: char)

  predicate Fits(s: string, e: Edit) {
    match e
    case Insert(at, _) => at <= |s|
    case Delete(at) => at < |s|
    case Replace(at, _) => at < |s|
  }

  function Perform(s: string, e: Edit): string
    requires Fits(s, e)
  {
    match e
    case Insert(at, c) => s[..at] + [c] + s[at..]
    case Delete(at) => s[..at] + s[at + 1..]
    case Replace(at, c) => s[..at] + [c] + s[at + 1..]
  }

  /** The script's edits, performed one after the other, turn `a` into `b`. */
  predicate Turns(a: string, script: seq<Edit>, b: string)
    decreases |script|
  {
    if script == [] then a == b
    else Fits(a, script[0]) && Turns(Perform(a, script[0]), script[1..], b)
  }

  lemma {:induction false} CommonSuffix(a: string, b: string, v: string)
    ensures Dist(a + v, b + v) <= Dist(a, b)
    decreases |v|
  {
    if v == [] {
      assert a + v == a && b + v == b;
    } else {
      assert Front(a + v) == a + Front(v) && Front(b + v) == b + Front(v);
      assert Last(a + v) == Last(b + v);
      CommonSuffix(a, b, Front(v));
    }
  }

  lemma {:induction false} LastDiffers(u: string, x: char, y: char)
    ensures Dist(u, u + [x]) <= 1 && Dist(u + [x], u) <= 1 && Dist(u + [x], u + [y]) <= 1
  {
    ZeroIffEqual(u, u);
    assert Front(u + [x]) == u && Front(u + [y]) == u;
    Symmetric(u, u + [x]);
  }

  lemma {:induction false} OneEdit(s: string, e: Edit)
    requires Fits(s, e)
    ensures Dist(s, Perform(s, e)) <= 1
  {
    hide Dist;
    var u := s[..e.at];
    match e
    case Insert(at, c) =>
      LastDiffers(u, c, c);
      CommonSuffix(u, u + [c], s[at..]);
      assert s == u + s[at..];
    case Delete(at) =>
      LastDiffers(u, s[at], s[at]);
      CommonSuffix(u + [s[at]], u, s[at + 1..]);
      assert s == u + [s[at]] + s[at + 1..];
    case Replace(at, c) =>
      LastDiffers(u, s[at], c);
      CommonSuffix(u + [s[at]], u + [c], s[at + 1..]);
      assert s == u + [s[at]] + s[at + 1..];
  }

  /** No script is shorter than the distance. */
  lemma {:induction false} ScriptAtLeast(a: string, script: seq<Edit>, b: string)
    requires Turns(a, script, b)
    ensures |script| >= Dist(a, b)
    decreases |script|
  {
    if script == [] {
      ZeroIffEqual(a, b);
    } else {
      var m := Perform(a, script[0]);
      OneEdit(a, script[0]);
      ScriptAtLeast(m, script[1..], b);
      Triangle(a, m, b);
    }
  }

  lemma {:induction false} TurnsThen(a: string, s1: seq<Edit>, b: string, s2: seq<Edit>, c: string)
    requires Turns(a, s1, b) && Turns(b, s2, c)
    ensures Turns(a, s1 + s2, c)
    decreases |s1|
  {
    if s1 == [] {
      assert s1 + s2 == s2;
    } else {
      assert (s1 + s2)[1..] == s1[1..] + s2;
      TurnsThen(Perform(a, s1[0]), s1[1..], b, s2, c);
    }
  }

  lemma {:induction false} TurnsUnder(a: string, script: seq<Edit>, b: string, c: char)
    requires Turns(a, script, b)
    ensures Turns(a + [c], script, b + [c])
    decreases |script|
  {
    if script != [] {
      var e := script[0];
      assert Perform(a + [c], e) == Perform(a, e) + [c];
      TurnsUnder(Perform(a, e), script[1..], b, c);
    }
  }

  lemma {:induction false} DeleteLast(a: string, rest: seq<Edit>, b: string)
    requires a != [] && Turns(Front(a), rest, b)
    ensures Turns(a, [Delete(|a| - 1)] + rest, b)
  {
    TurnsThen(a, [Delete(|a| - 1)], Front(a), rest, b);
  }

  lemma {:induction false} InsertLast(a: string, rest: seq<Edit>, b: string)
    requires b != [] && Turns(a, rest, Front(b))
    ensures Turns(a, rest + [Insert(|b| - 1, Last(b))], b)
  {
    TurnsThen(a, rest, Front(b), [Insert(|b| - 1, Last(b))], b);
  }

  lemma {:induction false} ReplaceLast(a: string, rest: seq<Edit>, b: string)
    requires a != [] && b != [] && Turns(Front(a), rest, Front(b))
    ensures Last(a) == Last(b) ==> Turns(a, rest, b)
    ensures Turns(a, rest + [Replace(|b| - 1, Last(b))], b)
  {
    var m := Front(b) + [Last(a)];
    assert a == Front(a) + [Last(a)] && b == Front(b) + [Last(b)];
    TurnsUnder(Front(a), rest, Front(b), Last(a));
    TurnsThen(a, rest, m, [Replace(|b| - 1, Last(b))], b);
  }

  /** Some script is exactly as long as the distance. */
  lemma {:induction false} ScriptAttained(a: string, b: string) returns (script: seq<Edit>)
    ensures Turns(a, script, b) && |script| == Dist(a, b)
    decreases |a| + |b|
  {
    hide Turns;
    if a == [] && b == [] {
      script := [];
      NothingToDo();
    } else if b == [] || (a != [] && Dist(a, b) == Dist(Front(a), b) + 1) {
      var rest := ScriptAttained(Front(a), b);
      DeleteLast(a, rest, b);
      script := [Delete(|a| - 1)] + rest;
    } else if a == [] || Dist(a, b) == Dist(a, Front(b)) + 1 {
      var rest := ScriptAttained(a, Front(b));
      InsertLast(a, rest, b);
      script := rest + [Insert(|b| - 1, Last(b))];
    } else {
      var rest := ScriptAttained(Front(a), Front(b));
      ReplaceLast(a, rest, b);
      script := if Last(a) == Last(b) then rest else rest + [Replace(|b| - 1, Last(b))];
    }
  }

  lemma {:induction false} NothingToDo()
    ensures Turns([], [], [])
  {
  }

  /** The recursive distance is the true one: the least number of single-character edits. */
  lemma {:induction false} DistIsLeastScript(a: string, b: string)
    ensures exists script :: Turns(a, script, b) && |script| == Dist(a, b)
    ensures forall script :: Turns(a, script, b) ==> |script| >= Dist(a, b)
  {
    var script := ScriptAttained(a, b);
    forall other | Turns(a, other, b) ensures |other| >= Dist(a, b) {
      ScriptAtLeast(a, other, b);
    }
  }
}
