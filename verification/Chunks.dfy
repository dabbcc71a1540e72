/**
 * Cutting a list of texts into overlapping chunks for term mining. A chunk is the join of a
 * run of consecutive texts; the runs are described by their spans in the list.
 */
module Chunks {
  import opened BatchTypes
  import LocFile

  /** The half-open run of positions lo, ..., hi-1. */
  datatype Span = Span(lo: nat, hi: nat)

  /** What `texts[lo..hi]` selects for a non-negative `lo`: negative ends count from the back, large ones are cut. */
  function SliceSpan(n: nat, lo: nat, hi: int): (s: Span)
    requires lo <= n
    ensures s.lo == lo <= s.hi <= n
  {
    var end := if hi < 0 then hi + n else if hi <= n then hi else n;
    Span(lo, if end < lo then lo else end)
  }

  function SpansFrom(n: nat, size: int, step: nat, index: nat): seq<Span>
    requires step >= 1
    decreases n - index
  {
    if index >= n then []
    else if index + size >= n then [SliceSpan(n, index, index + size)]
    else [SliceSpan(n, index, index + size)] + SpansFrom(n, size, step, index + step)
  }

  /** The spans of the chunks of n texts; none at all is an exception: a range with step zero. */
  function Spans(n: nat, size: int, overlap: int): Option<seq<Span>> {
    if n == 0 then Some([])
    else if n <= size then Some([Span(0, n)])
    else if size == overlap then None
    else if size < overlap then Some([])
    else Some(SpansFrom(n, size, size - overlap, 0))
  }

  function Cut<T>(texts: seq<T>, s: Span): seq<T>
    requires s.lo <= s.hi <= |texts|
  {
    texts[s.lo..s.hi]
  }

  predicate Within(spans: seq<Span>, n: nat) {
    forall i :: 0 <= i < |spans| ==> spans[i].lo <= spans[i].hi <= n
  }

  lemma {:induction false} SpansFromWithin(n: nat, size: int, step: nat, index: nat)
    requires step >= 1
    ensures Within(SpansFrom(n, size, step, index), n)
    decreases n - index
  {
    if index < n && index + size < n {
      SpansFromWithin(n, size, step, index + step);
    }
  }

  lemma {:induction false} SpansWithin(n: nat, size: int, overlap: int)
    ensures Spans(n, size, overlap).Some? ==> Within(Spans(n, size, overlap).value, n)
  {
    if size > overlap {
      SpansFromWithin(n, size, size - overlap, 0);
    }
  }

  lemma {:induction false} SpansStep(n: nat, size: int, step: nat, index: nat)
    requires step >= 1
    ensures index >= n ==> SpansFrom(n, size, step, index) == []
    ensures index < n && index + size >= n ==> SpansFrom(n, size, step, index) == [SliceSpan(n, index, index + size)]
    ensures index < n && index + size < n ==>
              SpansFrom(n, size, step, index) ==
              [SliceSpan(n, index, index + size)] + SpansFrom(n, size, step, index + step)
  {
  }

  /** The results are the joined runs of the spans. */
  ghost predicate JoinedRuns(texts: seq<string>, spans: seq<Span>, result: seq<string>) {
    && |result| == |spans| && Within(spans, |texts|)
    && forall i :: 0 <= i < |spans| ==> result[i] == LocFile.Join(Cut(texts, spans[i]))
  }

  lemma {:induction false} OneMoreRun(texts: seq<string>, spans: seq<Span>, result: seq<string>, span: Span)
    requires JoinedRuns(texts, spans, result) && span.lo <= span.hi <= |texts|
    ensures JoinedRuns(texts, spans + [span], result + [LocFile.Join(Cut(texts, span))])
  {
  }

  lemma {:induction false} NoRuns(texts: seq<string>)
    ensures JoinedRuns(texts, [], [])
  {
  }

  /** For any sizes: the chunks are the joined runs of the spans, or the step was zero. */
  method ChunkTexts(texts: seq<string>, size: int, overlap: int) returns (chunks: Option<seq<string>>)
    ensures var spans := Spans(|texts|, size, overlap);
            && (chunks.None? <==> spans.None?)
            && (spans.Some? ==> JoinedRuns(texts, spans.value, chunks.value))
  {
    SpansWithin(|texts|, size, overlap);
    if texts == [] {
      return Some([]);
    }
    if |texts| <= size {
      assert Cut(texts, Span(0, |texts|)) == texts;
      return Some([LocFile.Join(texts)]);
    }
    var step := size - overlap;
    if step == 0 {
      return None;
    }
    var result: seq<string> := [];
    if step < 0 {
      return Some(result);
    }
    var index := 0;
    ghost var spans := SpansFrom(|texts|, size, step, 0);
    ghost var done: seq<Span> := [];
    NoRuns(texts);
    hide SpansFrom, Cut, LocFile.Join, JoinedRuns, Within;
    while index < |texts|
      invariant done + SpansFrom(|texts|, size, step, index) == spans
      invariant JoinedRuns(texts, done, result)
    {
      SpansStep(|texts|, size, step, index);
      var span := SliceSpan(|texts|, index, index + size);
      OneMoreRun(texts, done, result, span);
      result := result + [LocFile.Join(Cut(texts, span))];
      if index + size >= |texts| {
        done := done + [span];
        break;
      }
      ghost var later := SpansFrom(|texts|, size, step, index + step);
      assert done + ([span] + later) == done + [span] + later;
      done := done + [span];
      index := index + step;
    }
    SpansStep(|texts|, size, step, index);
    assert done == spans;
    return Some(result);
  }

  // ---------------------------------------------------------------- layout of the spans

  /** Every chunk but the last is full, neighbours are one step apart, and the last one ends the list with new texts. */
  predicate Layout(spans: seq<Span>, n: nat, size: nat, overlap: nat)
    requires overlap < size
  {
    && spans != []
    && (forall i :: 0 <= i < |spans| - 1 ==> spans[i].hi == spans[i].lo + size)
    && (forall i :: 0 <= i < |spans| - 1 ==> spans[i + 1].lo + overlap == spans[i].hi)
    && (forall i :: 0 <= i < |spans| - 1 ==> spans[i].hi < n)
    && spans[|spans| - 1].hi == n
    && spans[|spans| - 1].lo < n <= spans[|spans| - 1].lo + size
  }

  lemma {:induction false} FullSpan(n: nat, size: nat, index: nat)
    requires index + size < n
    ensures SliceSpan(n, index, index + size) == Span(index, index + size)
  {
  }

  lemma {:induction false} LastSpan(n: nat, size: nat, index: nat)
    requires index < n <= index + size
    ensures SliceSpan(n, index, index + size) == Span(index, n)
  {
  }

  /** A full span one step before a layout extends it. */
  lemma {:induction false} LayoutGrows(rest: seq<Span>, n: nat, size: nat, overlap: nat, index: nat)
    requires overlap < size && Layout(rest, n, size, overlap) && index + size < n
    requires rest[0].lo == index + (size - overlap)
    ensures Layout([Span(index, index + size)] + rest, n, size, overlap)
  {
    var spans := [Span(index, index + size)] + rest;
    assert forall i :: 1 <= i < |spans| ==> spans[i] == rest[i - 1];
    assert spans[|spans| - 1] == rest[|rest| - 1];
  }

  lemma {:induction false} SpansFromLayout(n: nat, size: nat, overlap: nat, index: nat)
    requires overlap < size && index < n
    ensures var spans := SpansFrom(n, size, size - overlap, index);
            spans != [] && Layout(spans, n, size, overlap) && spans[0].lo == index
    decreases n - index
  {
    hide SliceSpan;
    if index + size < n {
      var next := index + (size - overlap);
      SpansFromLayout(n, size, overlap, next);
      var rest := SpansFrom(n, size, size - overlap, next);
      FullSpan(n, size, index);
      LayoutGrows(rest, n, size, overlap, index);
      assert SpansFrom(n, size, size - overlap, index) == [Span(index, index + size)] + rest;
    } else {
      LastSpan(n, size, index);
    }
  }

  lemma {:induction false} LayoutSizes(spans: seq<Span>, n: nat, size: nat, overlap: nat, i: nat)
    requires overlap < size < n && Layout(spans, n, size, overlap) && spans[0].lo == 0 && Within(spans, n)
    requires i < |spans|
    ensures |spans| >= 2
    ensures overlap < spans[i].hi - spans[i].lo <= size
    ensures i < |spans| - 1 ==> spans[i].hi - spans[i].lo == size
  {
    if i == |spans| - 1 {
      assert spans[i - 1].hi < n && spans[i - 1 + 1].lo + overlap == spans[i - 1].hi;
    }
  }

  lemma {:induction false} NeighboursShare<T>(texts: seq<T>, spans: seq<Span>, size: nat, overlap: nat, i: nat)
    requires overlap < size && Layout(spans, |texts|, size, overlap) && Within(spans, |texts|)
    requires i < |spans| - 1 && |Cut(texts, spans[i + 1])| >= overlap
    ensures Cut(texts, spans[i])[size - overlap..] == Cut(texts, spans[i + 1])[..overlap]
  {
    var left, right := spans[i], spans[i + 1];
    assert right.lo + overlap == left.hi == left.lo + size;
    assert Cut(texts, left)[size - overlap..] == texts[right.lo..left.hi];
    assert Cut(texts, right)[..overlap] == texts[right.lo..left.hi];
  }

  /**
   * Chunks never exceed the size, all but the last are full, neighbours share exactly the overlap,
   * and each chunk after the first holds more than the shared texts.
   */
  lemma {:induction false} ChunksOverlapExactly<T>(texts: seq<T>, size: nat, overlap: nat)
    requires overlap < size < |texts|
    ensures Spans(|texts|, size, overlap).Some? && Within(Spans(|texts|, size, overlap).value, |texts|)
    ensures var spans := Spans(|texts|, size, overlap).value;
            && |spans| >= 2
            && (forall i :: 0 <= i < |spans| ==> overlap < |Cut(texts, spans[i])| <= size)
            && (forall i :: 0 <= i < |spans| - 1 ==> |Cut(texts, spans[i])| == size)
            && (forall i :: 0 <= i < |spans| - 1 ==>
                  var left, right := Cut(texts, spans[i]), Cut(texts, spans[i + 1]);
                  left[size - overlap..] == right[..overlap])
  {
    hide SpansFrom, Layout;
    var n := |texts|;
    SpansWithin(n, size, overlap);
    SpansFromLayout(n, size, overlap, 0);
    var spans := Spans(n, size, overlap).value;
    LayoutSizes(spans, n, size, overlap, 0);
    forall i | 0 <= i < |spans|
      ensures overlap < |Cut(texts, spans[i])| <= size && (i < |spans| - 1 ==> |Cut(texts, spans[i])| == size)
    {
      LayoutSizes(spans, n, size, overlap, i);
    }
    forall i | 0 <= i < |spans| - 1
      ensures Cut(texts, spans[i])[size - overlap..] == Cut(texts, spans[i + 1])[..overlap]
    {
      NeighboursShare(texts, spans, size, overlap, i);
    }
  }

  /** The new texts of each span: what is left after dropping the part shared with the span before. */
  function NewParts<T>(texts: seq<T>, spans: seq<Span>, overlap: nat): seq<seq<T>>
    requires Within(spans, |texts|) && forall i :: 0 <= i < |spans| ==> spans[i].hi - spans[i].lo >= overlap
  {
    seq(|spans|, i requires 0 <= i < |spans| => Cut(texts, spans[i])[overlap..])
  }

  lemma {:induction false} FirstPart<T>(texts: seq<T>, spans: seq<Span>, overlap: nat)
    requires spans != [] && Within(spans, |texts|)
    requires forall i :: 0 <= i < |spans| ==> spans[i].hi - spans[i].lo >= overlap
    ensures Flatten(NewParts(texts, spans, overlap)) ==
            texts[spans[0].lo + overlap..spans[0].hi] + Flatten(NewParts(texts, spans[1..], overlap))
  {
    assert NewParts(texts, spans, overlap)[1..] == NewParts(texts, spans[1..], overlap);
    assert texts[spans[0].lo..spans[0].hi][overlap..] == texts[spans[0].lo + overlap..spans[0].hi];
  }

  lemma {:induction false} NoParts<T>(texts: seq<T>, spans: seq<Span>, overlap: nat)
    requires spans == []
    ensures Flatten(NewParts(texts, spans, overlap)) == []
  {
  }

  lemma {:induction false} PartsOfRest<T>(texts: seq<T>, from: nat, to: nat)
    requires from <= to <= |texts|
    ensures texts[from..to] + texts[to..] == texts[from..] && (to == |texts| ==> texts[to..] == [])
  {
  }

  lemma {:induction false} RestWithin(spans: seq<Span>, n: nat)
    requires spans != [] && Within(spans, n)
    ensures spans[0].lo <= spans[0].hi <= n && Within(spans[1..], n)
  {
  }

  lemma {:induction false} LayoutRest(spans: seq<Span>, n: nat, size: nat, overlap: nat)
    requires overlap < size && Layout(spans, n, size, overlap)
    ensures if |spans| == 1 then spans[0].hi == n
            else Layout(spans[1..], n, size, overlap) && spans[1].lo + overlap == spans[0].hi
  {
    if |spans| > 1 {
      assert spans[0 + 1].lo + overlap == spans[0].hi;
      assert forall i :: 0 <= i < |spans| - 1 ==> spans[1..][i] == spans[i + 1];
    }
  }

  lemma {:induction false} NewPartsRebuild<T>(texts: seq<T>, spans: seq<Span>, size: nat, overlap: nat)
    requires overlap < size && Layout(spans, |texts|, size, overlap) && Within(spans, |texts|)
    requires forall i :: 0 <= i < |spans| ==> spans[i].hi - spans[i].lo >= overlap
    ensures Flatten(NewParts(texts, spans, overlap)) == texts[spans[0].lo + overlap..]
    decreases |spans|
  {
    assert spans != [];
    hide NewParts, Layout, Flatten, Within;
    RestWithin(spans, |texts|);
    FirstPart(texts, spans, overlap);
    LayoutRest(spans, |texts|, size, overlap);
    PartsOfRest(texts, spans[0].lo + overlap, spans[0].hi);
    if |spans| == 1 {
      NoParts(texts, spans[1..], overlap);
    } else {
      NewPartsRebuild(texts, spans[1..], size, overlap);
    }
  }

  /** Dropping from each chunk after the first the part shared with its predecessor rebuilds the list. */
  lemma {:induction false} ChunksRebuild<T>(texts: seq<T>, size: nat, overlap: nat)
    requires overlap < size < |texts|
    ensures Spans(|texts|, size, overlap).Some? && Within(Spans(|texts|, size, overlap).value, |texts|)
    ensures var spans := Spans(|texts|, size, overlap).value;
            && (forall i :: 0 <= i < |spans| ==> spans[i].hi - spans[i].lo >= overlap)
            && spans != []
            && Cut(texts, spans[0])[..overlap] + Flatten(NewParts(texts, spans, overlap)) == texts
  {
    hide SpansFrom, Flatten;
    var n := |texts|;
    SpansFromLayout(n, size, overlap, 0);
    ChunksOverlapExactly(texts, size, overlap);
    var spans := Spans(n, size, overlap).value;
    assert forall i :: 0 <= i < |spans| ==> |Cut(texts, spans[i])| == spans[i].hi - spans[i].lo;
    NewPartsRebuild(texts, spans, size, overlap);
    hide NewParts, Layout, Spans, Within;
    assert Cut(texts, spans[0])[..overlap] == texts[..overlap];
    assert texts == texts[..overlap] + texts[overlap..];
  }

  predicate Inside(lo: int, hi: int, spans: seq<Span>) {
    exists i :: 0 <= i < |spans| && spans[i].lo <= lo && hi <= spans[i].hi
  }

  lemma {:induction false} WindowInsideFrom(n: nat, size: nat, overlap: nat, index: nat, w: nat)
    requires overlap < size && index < n && index <= w && w + overlap + 1 <= n
    ensures Inside(w, w + overlap + 1, SpansFrom(n, size, size - overlap, index))
    decreases n - index
  {
    var spans := SpansFrom(n, size, size - overlap, index);
    if index + size >= n || w + overlap + 1 <= index + size {
      assert spans[0].lo <= w && w + overlap + 1 <= spans[0].hi;
    } else {
      var next := index + (size - overlap);
      var rest := SpansFrom(n, size, size - overlap, next);
      WindowInsideFrom(n, size, overlap, next, w);
      var i :| 0 <= i < |rest| && rest[i].lo <= w && w + overlap + 1 <= rest[i].hi;
      assert spans[i + 1] == rest[i];
    }
  }

  /** Any overlap+1 consecutive texts are seen together in some chunk, in spite of the early break. */
  lemma {:induction false} EveryWindowInOneChunk(n: nat, size: nat, overlap: nat, w: nat)
    requires overlap < size && w + overlap + 1 <= n
    ensures Spans(n, size, overlap).Some? && Inside(w, w + overlap + 1, Spans(n, size, overlap).value)
  {
    if n <= size {
      assert Span(0, n) == Spans(n, size, overlap).value[0];
    } else {
      WindowInsideFrom(n, size, overlap, 0, w);
    }
  }

  /** One more text than that can straddle two chunks: the bound is exact. */
  lemma {:induction false} LongerWindowCanBeSplit(size: nat, overlap: nat)
    requires overlap < size
    ensures var n := size + 2;
            && Spans(n, size, overlap).Some?
            && var w := size - overlap - 1;
               !Inside(w, w + overlap + 2, Spans(n, size, overlap).value)
  {
    hide SpansFrom;
    SpansFromLayout(size + 2, size, overlap, 0);
    var spans := Spans(size + 2, size, overlap).value;
    forall i | 0 <= i < |spans| && spans[i].lo <= size - overlap - 1 ensures spans[i].hi < size + 1 {
      LaterSpansStartLater(spans, size + 2, size, overlap, i);
      assert i == 0;
      assert |spans| > 1;
    }
  }

  lemma {:induction false} LaterSpansStartLater(spans: seq<Span>, n: nat, size: nat, overlap: nat, i: nat)
    requires overlap < size && Layout(spans, n, size, overlap) && i < |spans|
    ensures i > 0 ==> spans[i].lo >= spans[0].lo + (size - overlap)
  {
    if i > 0 {
      LaterSpansStartLater(spans, n, size, overlap, i - 1);
      assert spans[i - 1 + 1].lo + overlap == spans[i - 1].hi;
    }
  }

  // ---------------------------------------------------------------- which settings lose texts

  predicate Chunked(p: int, spans: seq<Span>) {
    Inside(p, p + 1, spans)
  }

  lemma {:induction false} WideStepSkips(n: nat, size: int, step: nat, index: nat, p: nat)
    requires 0 <= size < step && p < n
    requires index > p || (index == 0 && p == size)
    ensures !Chunked(p, SpansFrom(n, size, step, index))
    decreases n - index
  {
    if index < n && index + size < n {
      WideStepSkips(n, size, step, index + step, p);
    }
  }

  lemma {:induction false} NegativeSizeMissesLast(n: nat, size: int, step: nat, index: nat)
    requires step >= 1 && n >= 1 && size < 0
    ensures !Chunked(n - 1, SpansFrom(n, size, step, index))
    decreases n - index
  {
    if index < n {
      NegativeSizeMissesLast(n, size, step, index + step);
    }
  }

  /** Every text reaches some chunk exactly when they all fit in one, or 0 <= overlap < size. */
  lemma {:induction false} AllTextsChunkedIff(n: nat, size: int, overlap: int)
    ensures (Spans(n, size, overlap).Some? &&
             forall p: nat :: p < n ==> Chunked(p, Spans(n, size, overlap).value)) <==>
            (n == 0 || n <= size || 0 <= overlap < size)
  {
    hide SpansFrom, Chunked;
    if n == 0 || n <= size {
      if n > 0 {
        forall p: nat | p < n ensures Chunked(p, Spans(n, size, overlap).value) {
          OneSpanHoldsAll(n, p);
        }
      }
    } else if 0 <= overlap < size {
      forall p: nat | p < n ensures Chunked(p, Spans(n, size, overlap).value) {
        PositionInside(n, size, overlap, p);
      }
    } else if size == overlap {
    } else if size < overlap {
      NothingInside(n - 1);
      var last: nat := n - 1;
      assert !Chunked(last, Spans(n, size, overlap).value);
    } else if size < 0 {
      NegativeSizeMissesLast(n, size, size - overlap, 0);
      var last: nat := n - 1;
      assert !Chunked(last, Spans(n, size, overlap).value);
    } else {
      WideStepSkips(n, size, size - overlap, 0, size);
      var gap: nat := size;
      assert !Chunked(gap, Spans(n, size, overlap).value);
    }
  }

  /** Three texts, for each way to miss the condition: an exception, no chunk at all, and a gap. */
  lemma {:induction false} SettingsThatLoseTexts()
    ensures Spans(3, 2, 2) == None
    ensures Spans(3, 1, 2) == Some([])
    ensures Spans(3, 1, -1) == Some([Span(0, 1), Span(2, 3)]) && !Chunked(1, Spans(3, 1, -1).value)
  {
    assert SpansFrom(3, 1, 2, 2) == [Span(2, 3)];
    assert SpansFrom(3, 1, 2, 0) == [Span(0, 1)] + SpansFrom(3, 1, 2, 2);
    var spans := [Span(0, 1), Span(2, 3)];
    assert SpansFrom(3, 1, 2, 0) == spans;
    assert forall i :: 0 <= i < |spans| ==> spans[i].lo == 0 || spans[i].lo == 2;
    assert !Inside(1, 2, spans);
  }

  lemma {:induction false} OneSpanHoldsAll(n: nat, p: nat)
    requires p < n
    ensures Chunked(p, [Span(0, n)])
  {
    assert [Span(0, n)][0].lo <= p;
  }

  lemma {:induction false} NothingInside(p: int)
    ensures !Chunked(p, [])
  {
  }

  lemma {:induction false} PositionInside(n: nat, size: nat, overlap: nat, p: nat)
    requires overlap < size < n && p < n
    ensures Chunked(p, Spans(n, size, overlap).value)
  {
    var w: nat := if p + overlap + 1 <= n then p else n - overlap - 1;
    EveryWindowInOneChunk(n, size, overlap, w);
    var spans := Spans(n, size, overlap).value;
    var i :| 0 <= i < |spans| && spans[i].lo <= w && w + overlap + 1 <= spans[i].hi;
    assert spans[i].lo <= p && p + 1 <= spans[i].hi;
  }
}
