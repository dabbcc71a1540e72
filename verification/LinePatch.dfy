/**
 * Splicing a translation into a line: the position of the value is found by a scanner that
 * knows quotes, escapes and comments. On well-formed lines patching and reading obey the
 * lens laws, exactly when no bare '#' shows up inside the value.
 */
module LinePatch {
  import opened BatchTypes
  import opened LocText
  import opened Strings

  // ---------------------------------------------------------------- searching

  /** str.find: the first occurrence at or after `i`. */
  function Find(s: string, sub: string, i: nat): (r: Option<nat>)
    requires i <= |s|
    ensures r.Some? ==> i <= r.value && OccursAt(s, sub, r.value)
    ensures r.Some? ==> forall j: nat :: i <= j < r.value ==> !OccursAt(s, sub, j)
    ensures r.None? ==> forall j: nat :: i <= j <= |s| ==> !OccursAt(s, sub, j)
    decreases |s| - i
  {
    if OccursAt(s, sub, i) then Some(i)
    else if i == |s| then None
    else Find(s, sub, i + 1)
  }

  function FindQuote(s: string, i: nat): (r: Option<nat>)
    requires i <= |s|
    ensures r.Some? ==> i <= r.value < |s| && s[r.value] == '"' && forall j :: i <= j < r.value ==> s[j] != '"'
    ensures r.None? ==> forall j :: i <= j < |s| ==> s[j] != '"'
    decreases |s| - i
  {
    if i == |s| then None else if s[i] == '"' then Some(i) else FindQuote(s, i + 1)
  }

  /** str.rfind('"', lo, hi) */
  function FindLastQuote(s: string, lo: nat, hi: nat): (r: Option<nat>)
    requires hi <= |s|
    ensures r.Some? ==> lo <= r.value < hi && s[r.value] == '"' && forall j :: r.value < j < hi ==> s[j] != '"'
    ensures r.None? ==> forall j :: lo <= j < hi ==> s[j] != '"'
    decreases hi
  {
    if hi <= lo then None else if s[hi - 1] == '"' then Some(hi - 1) else FindLastQuote(s, lo, hi - 1)
  }

  // ---------------------------------------------------------------- the scanner

  /** Where scanning stops: at a comment sign outside quotes, or at the end in some state. */
  datatype Scan = Comment(at: nat) | End(inQuotes: bool, escapeNext: bool)

  function ScanFrom(s: string, inQuotes: bool, escapeNext: bool): Scan {
    if s == "" then End(inQuotes, escapeNext)
    else if escapeNext then Later(ScanFrom(s[1..], inQuotes, false))
    else if s[0] == '\\' then Later(ScanFrom(s[1..], inQuotes, true))
    else if s[0] == '"' then Later(ScanFrom(s[1..], !inQuotes, false))
    else if s[0] == '#' && !inQuotes then Comment(0)
    else Later(ScanFrom(s[1..], inQuotes, false))
  }

  function Later(scan: Scan): Scan {
    if scan.Comment? then Comment(scan.at + 1) else scan
  }

  function NextQuotes(c: char, q: bool, e: bool): bool {
    if !e && c == '"' then !q else q
  }

  function NextEscape(c: char, e: bool): bool {
    !e && c == '\\'
  }

  lemma {:induction false} ScanStep(s: string, q: bool, e: bool)
    requires s != ""
    ensures ScanFrom(s, q, e) ==
            if !e && !q && s[0] == '#' then Comment(0)
            else Later(ScanFrom(s[1..], NextQuotes(s[0], q, e), NextEscape(s[0], e)))
  {
  }

  lemma {:induction false} ScanAppend(a: string, b: string, q: bool, e: bool)
    ensures match ScanFrom(a, q, e)
            case Comment(at) => ScanFrom(a + b, q, e) == Comment(at)
            case End(q', e') => ScanFrom(a + b, q, e) == Shifted(ScanFrom(b, q', e'), |a|)
  {
    if a == "" {
      assert a + b == b;
    } else {
      assert (a + b)[0] == a[0] && (a + b)[1..] == a[1..] + b;
      ScanStep(a, q, e);
      ScanStep(a + b, q, e);
      hide ScanFrom;
      ScanAppend(a[1..], b, NextQuotes(a[0], q, e), NextEscape(a[0], e));
    }
  }

  lemma {:induction false} CommentInside(s: string, q: bool, e: bool)
    ensures ScanFrom(s, q, e).Comment? ==>
              ScanFrom(s, q, e).at < |s| && s[ScanFrom(s, q, e).at] == '#' &&
              (q ==> exists j :: 0 <= j < ScanFrom(s, q, e).at && s[j] == '"')
  {
    if s != "" && ScanFrom(s, q, e).Comment? && ScanFrom(s, q, e).at > 0 {
      var q' := if !e && s[0] == '"' then !q else q;
      var e' := !e && s[0] == '\\';
      CommentInside(s[1..], q', e');
      var at := ScanFrom(s, q, e).at;
      assert ScanFrom(s[1..], q', e').at == at - 1;
      if q {
        if !e && s[0] == '"' {
          assert s[0] == '"' && 0 < at;
        } else {
          var j :| 0 <= j < at - 1 && s[1..][j] == '"';
          assert s[j + 1] == '"';
        }
      }
    }
  }

  // ---------------------------------------------------------------- patching

  /** Where the search for the closing quote ends: at a real comment, or at the end of the line. */
  function SearchEnd(line: string, keyPos: nat): (end: nat)
    requires keyPos <= |line|
    ensures end <= |line|
  {
    CommentInside(line[keyPos..], false, false);
    match ScanFrom(line[keyPos..], false, false)
    case Comment(at) => keyPos + at
    case End(_, _) => |line|
  }

  /** The positions of the opening and the closing quote. */
  function ValueSpan(line: string, keyPart: string): (r: Option<(nat, nat)>)
    ensures r.Some? ==> r.value.0 < r.value.1 < |line| && line[r.value.0] == '"'
  {
    match Find(line, keyPart, 0)
    case None => None
    case Some(keyPos) =>
      match FindQuote(line, keyPos + |keyPart|)
      case None => None
      case Some(first) =>
        match FindLastQuote(line, first + 1, SearchEnd(line, keyPos))
        case None => None
        case Some(last) => Some((first, last))
  }

  function Splice(line: string, first: nat, last: nat, text: string): string
    requires first < last < |line|
  {
    line[..first + 1] + Escape(text) + line[last..]
  }

  /** The patched line; None where the source logs a warning and keeps the line. */
  function PatchLine(line: string, keyPart: string, text: string): Option<string> {
    match ValueSpan(line, keyPart)
    case None => None
    case Some((first, last)) => Some(Splice(line, first, last, text))
  }

  ghost predicate QuoteBetween(line: string, from: nat, to: nat) {
    exists j :: from <= j < to && j < |line| && line[j] == '"'
  }

  /**
   * When a line is kept: it does not contain the key part, no quote follows that, or no second quote
   * follows before the first comment sign outside quotes, counted from the key part on.
   */
  lemma {:induction false} KeptIff(line: string, keyPart: string, text: string)
    ensures PatchLine(line, keyPart, text).None? <==>
            match Find(line, keyPart, 0)
            case None => true
            case Some(key) =>
              match FindQuote(line, key + |keyPart|)
              case None => true
              case Some(first) => !QuoteBetween(line, first + 1, SearchEnd(line, key))
    ensures Find(line, keyPart, 0).None? <==> forall i: nat :: i <= |line| ==> !OccursAt(line, keyPart, i)
    ensures forall from: nat :: from <= |line| ==> (FindQuote(line, from).None? <==> !QuoteBetween(line, from, |line|))
  {
    hide SearchEnd, Find, Splice, FindQuote, FindLastQuote;
  }

  method Patch(line: string, keyPart: string, text: string) returns (r: Option<string>)
    ensures r == PatchLine(line, keyPart, text)
  {
    var keyPos := Find(line, keyPart, 0);
    if keyPos.None? {
      return None;
    }
    var first := FindQuote(line, keyPos.value + |keyPart|);
    if first.None? {
      return None;
    }
    var end := FindSearchEnd(line, keyPos.value);
    var last := FindLastQuote(line, first.value + 1, end);
    if last.None? {
      return None;
    }
    return Some(line[..first.value + 1] + Escape(text) + line[last.value..]);
  }

  /** The scanning loop. */
  method FindSearchEnd(line: string, keyPos: nat) returns (end: nat)
    requires keyPos <= |line|
    ensures end == SearchEnd(line, keyPos)
  {
    var inQuotes, escapeNext := false, false;
    var idx := keyPos;
    ghost var scan := ScanFrom(line[keyPos..], false, false);
    while idx < |line|
      invariant keyPos <= idx <= |line|
      invariant scan == Shifted(ScanFrom(line[idx..], inQuotes, escapeNext), idx - keyPos)
    {
      assert line[idx..][0] == line[idx] && line[idx..][1..] == line[idx + 1..];
      var c := line[idx];
      if escapeNext {
        escapeNext := false;
      } else if c == '\\' {
        escapeNext := true;
      } else if c == '"' {
        inQuotes := !inQuotes;
      } else if c == '#' && !inQuotes {
        return idx;
      }
      idx := idx + 1;
    }
    assert line[idx..] == "";
    return |line|;
  }

  function Shifted(scan: Scan, n: nat): Scan {
    if scan.Comment? then Comment(scan.at + n) else scan
  }

  // ---------------------------------------------------------------- well-formed lines

  /** A line put together from its head, its raw value and what follows the closing quote. */
  function Line(pre: string, raw: string, tail: string): string {
    pre + ("\"" + (raw + ("\"" + tail)))
  }

  /**
   * The head is a key with its colon and version, contains the key part that is looked for, and
   * neither quotes, escapes nor comments between that key part and the value; the tail has no quote.
   */
  ghost predicate WellFormed(keyPart: string, pre: string, tail: string) {
    && IsHead(pre) && OneLine(pre)
    && '"' !in tail
    && Find(pre, keyPart, 0).Some?
    && ScanFrom(pre[Find(pre, keyPart, 0).value..], false, false) == End(false, false)
    && (forall j :: Find(pre, keyPart, 0).value + |keyPart| <= j < |pre| ==> pre[j] != '"')
  }

  /** No comment sign in the raw value lies outside quotes, as the scanner sees them. */
  predicate HashSafe(raw: string) {
    ScanFrom(raw, true, false).End?
  }

  /**
   * The piece of an old value that a patch leaves behind: nothing, or what starts with the last quote
   * before the first bare comment sign, which the search takes for the closing quote.
   */
  function Leftover(raw: string): (r: string)
    ensures r == "" <==> HashSafe(raw)
    ensures r != "" ==> r[0] == '"' && |r| <= |raw| && r == raw[|raw| - |r|..] && '#' in r
  {
    CommentInside(raw, true, false);
    match ScanFrom(raw, true, false)
    case End(_, _) => ""
    case Comment(at) =>
      var last := FindLastQuote(raw, 0, at);
      assert raw[last.value..][at - last.value] == '#';
      raw[last.value..]
  }

  lemma {:induction false} FindInHead(pre: string, rest: string, keyPart: string)
    requires Find(pre, keyPart, 0).Some?
    ensures Find(pre + rest, keyPart, 0) == Find(pre, keyPart, 0)
  {
    var s := pre + rest;
    var k := Find(pre, keyPart, 0).value;
    assert s[k..k + |keyPart|] == pre[k..k + |keyPart|];
    assert OccursAt(s, keyPart, k);
    forall j: nat | j < k ensures !OccursAt(s, keyPart, j) {
      assert s[j..j + |keyPart|] == pre[j..j + |keyPart|];
      assert !OccursAt(pre, keyPart, j);
    }
  }

  lemma {:induction false} FirstQuoteAfterHead(pre: string, rest: string, from: nat)
    requires from <= |pre| && forall j :: from <= j < |pre| ==> pre[j] != '"'
    ensures FindQuote(pre + ("\"" + rest), from) == Some(|pre|)
  {
    var s := pre + ("\"" + rest);
    assert s[|pre|] == '"';
    assert forall j :: from <= j < |pre| ==> s[j] == pre[j];
  }

  /** The scan of a whole line, in terms of the scan of its raw value. */
  lemma {:induction false} ScanLine(keyPart: string, pre: string, raw: string, tail: string)
    requires WellFormed(keyPart, pre, tail)
    ensures var keyPos := Find(pre, keyPart, 0).value;
            var scan := ScanFrom(Line(pre, raw, tail)[keyPos..], false, false);
            if HashSafe(raw) then scan.Comment? ==> keyPos + scan.at > |pre| + 1 + |raw|
            else scan == Comment(|pre| - keyPos + 1 + ScanFrom(raw, true, false).at)
  {
    hide ScanFrom, IsHead, OneLine, Find;
    var keyPos := Find(pre, keyPart, 0).value;
    var head := pre[keyPos..];
    var rest := raw + ("\"" + tail);
    assert Line(pre, raw, tail)[keyPos..] == head + ("\"" + rest);
    ScanAppend(head, "\"" + rest, false, false);
    assert ("\"" + rest)[1..] == rest;
    ScanStep("\"" + rest, false, false);
    ScanAppend(raw, "\"" + tail, true, false);
    if HashSafe(raw) {
      var e := ScanFrom(raw, true, false);
      ScanStep("\"" + tail, e.inQuotes, e.escapeNext);
    }
  }

  /** The closing quote is the last one as long as the search reaches it. */
  lemma {:induction false} LastQuoteOfLine(pre: string, raw: string, tail: string, end: nat)
    requires '"' !in tail && |pre| + 1 + |raw| < end <= |Line(pre, raw, tail)|
    ensures FindLastQuote(Line(pre, raw, tail), |pre| + 1, end) == Some(|pre| + 1 + |raw|)
  {
    var s := Line(pre, raw, tail);
    var at := |pre| + 1 + |raw|;
    assert s[at] == '"';
    assert forall j :: at < j < |s| ==> s[j] == tail[j - at - 1];
  }

  lemma {:induction false} LineParts(pre: string, raw: string, tail: string)
    ensures var s := Line(pre, raw, tail);
            && s[..|pre| + 1] == pre + "\""
            && s[|pre| + 1 + |raw|..] == "\"" + tail
            && |s| == |pre| + |raw| + |tail| + 2
  {
  }

  lemma {:induction false} SpanStart(keyPart: string, pre: string, raw: string, tail: string)
    requires WellFormed(keyPart, pre, tail)
    ensures var line := Line(pre, raw, tail);
            && Find(line, keyPart, 0) == Find(pre, keyPart, 0)
            && FindQuote(line, Find(pre, keyPart, 0).value + |keyPart|) == Some(|pre|)
  {
    hide ScanFrom, IsHead, OneLine, Find, FindQuote;
    FindInHead(pre, "\"" + (raw + ("\"" + tail)), keyPart);
    FirstQuoteAfterHead(pre, raw + ("\"" + tail), Find(pre, keyPart, 0).value + |keyPart|);
  }

  /** With a bare comment sign in the value, the search ends inside the value. */
  lemma {:induction false} LastQuoteOfPiece(pre: string, raw: string, tail: string, at: nat)
    requires at <= |raw| && FindLastQuote(raw, 0, at).Some?
    ensures FindLastQuote(Line(pre, raw, tail), |pre| + 1, |pre| + 1 + at) ==
            Some(|pre| + 1 + FindLastQuote(raw, 0, at).value)
  {
    hide FindLastQuote;
    var s, k := Line(pre, raw, tail), FindLastQuote(raw, 0, at).value;
    assert forall j :: 0 <= j < |raw| ==> s[|pre| + 1 + j] == raw[j];
    assert s[|pre| + 1 + k] == '"';
    assert forall j :: |pre| + 1 + k < j < |pre| + 1 + at ==> s[j] == raw[j - |pre| - 1] && s[j] != '"';
  }

  lemma {:induction false} LeftoverStart(raw: string)
    requires !HashSafe(raw)
    ensures var at := ScanFrom(raw, true, false).at;
            at <= |raw| && FindLastQuote(raw, 0, at) == Some(|raw| - |Leftover(raw)|)
  {
    hide ScanFrom, FindLastQuote;
    CommentInside(raw, true, false);
  }

  /** Where the search ends: behind the value, or at its first bare comment sign. */
  lemma {:induction false} SearchEndIs(keyPart: string, pre: string, raw: string, tail: string)
    requires WellFormed(keyPart, pre, tail)
    ensures var line, keyPos := Line(pre, raw, tail), Find(pre, keyPart, 0).value;
            && keyPos <= |line|
            && if HashSafe(raw) then |pre| + 1 + |raw| < SearchEnd(line, keyPos)
               else SearchEnd(line, keyPos) == |pre| + 1 + ScanFrom(raw, true, false).at
  {
    hide ScanFrom, Find, IsHead, OneLine;
    ScanLine(keyPart, pre, raw, tail);
    LineParts(pre, raw, tail);
  }

  lemma {:induction false} ClosingQuoteIs(pre: string, raw: string, tail: string, end: nat)
    requires '"' !in tail && end <= |Line(pre, raw, tail)|
    requires if HashSafe(raw) then |pre| + 1 + |raw| < end else end == |pre| + 1 + ScanFrom(raw, true, false).at
    ensures FindLastQuote(Line(pre, raw, tail), |pre| + 1, end) == Some(|pre| + 1 + |raw| - |Leftover(raw)|)
  {
    hide FindLastQuote, Leftover, Line;
    if HashSafe(raw) {
      LastQuoteOfLine(pre, raw, tail, end);
    } else {
      LeftoverStart(raw);
      LastQuoteOfPiece(pre, raw, tail, ScanFrom(raw, true, false).at);
    }
  }

  lemma {:induction false} SpanIs(keyPart: string, pre: string, raw: string, tail: string)
    requires WellFormed(keyPart, pre, tail)
    ensures ValueSpan(Line(pre, raw, tail), keyPart) == Some((|pre|, |pre| + 1 + |raw| - |Leftover(raw)|))
  {
    hide WellFormed, HashSafe, ScanFrom, Find, FindQuote, FindLastQuote, Leftover, SearchEnd, Line;
    SpanStart(keyPart, pre, raw, tail);
    SearchEndIs(keyPart, pre, raw, tail);
    TailHasNoQuote(keyPart, pre, tail);
    ClosingQuoteIs(pre, raw, tail, SearchEnd(Line(pre, raw, tail), Find(pre, keyPart, 0).value));
  }

  lemma {:induction false} TailHasNoQuote(keyPart: string, pre: string, tail: string)
    requires WellFormed(keyPart, pre, tail)
    ensures '"' !in tail && Find(pre, keyPart, 0).Some?
  {
    hide ScanFrom, Find, IsHead, OneLine;
  }

  /** Replacing all of a value but a piece at its end. */
  lemma {:induction false} SpliceLine(pre: string, front: string, rest: string, tail: string, text: string)
    ensures Splice(Line(pre, front + rest, tail), |pre|, |pre| + 1 + |front|, text) ==
            Line(pre, Escape(text) + rest, tail)
  {
    hide Escape;
    assert Line(pre, front + rest, tail)[..|pre| + 1] == pre + "\"";
    assert Line(pre, front + rest, tail)[|pre| + 1 + |front|..] == rest + ("\"" + tail);
  }

  /** What a patch of a well-formed line does, for any old value: the text, and what is left over of the value. */
  lemma {:induction false} PatchIs(keyPart: string, pre: string, raw: string, tail: string, text: string)
    requires WellFormed(keyPart, pre, tail)
    ensures PatchLine(Line(pre, raw, tail), keyPart, text) == Some(Line(pre, Escape(text) + Leftover(raw), tail))
  {
    hide ScanFrom, ValueSpan, WellFormed, Leftover, HashSafe, Line, Splice, Escape;
    SpanIs(keyPart, pre, raw, tail);
    var rest := Leftover(raw);
    var front := raw[..|raw| - |rest|];
    assert raw == front + rest;
    SpliceLine(pre, front, rest, tail, text);
  }

  lemma {:induction false} LineInjective(pre: string, a: string, b: string, tail: string)
    ensures Line(pre, a, tail) == Line(pre, b, tail) <==> a == b
  {
    LineParts(pre, a, tail);
    LineParts(pre, b, tail);
    assert Line(pre, a, tail)[|pre| + 1..|pre| + 1 + |a|] == a;
    assert Line(pre, b, tail)[|pre| + 1..|pre| + 1 + |b|] == b;
  }

  /** Patching replaces exactly the value if and only if the old value is hash-safe. */
  lemma {:induction false} PatchesExactlyIff(keyPart: string, pre: string, raw: string, tail: string, text: string)
    requires WellFormed(keyPart, pre, tail)
    ensures PatchLine(Line(pre, raw, tail), keyPart, text) == Some(Line(pre, Escape(text), tail)) <==> HashSafe(raw)
  {
    hide PatchLine, WellFormed, HashSafe, Line;
    PatchIs(keyPart, pre, raw, tail, text);
    LineInjective(pre, Escape(text) + Leftover(raw), Escape(text), tail);
    assert HashSafe(raw) ==> Escape(text) + Leftover(raw) == Escape(text);
  }

  // ---------------------------------------------------------------- reading

  /** The part of a line before its first line break, which is all the parser gets to see of it. */
  function Chomp(s: string): (r: string)
    ensures |r| <= |s| && r == s[..|r|] && OneLine(r)
    ensures |r| < |s| ==> IsBreak(s[|r|])
  {
    if s == "" || IsBreak(s[0]) then "" else [s[0]] + Chomp(s[1..])
  }

  /** The value the parser reads from a line. */
  function ReadLine(line: string): Option<string> {
    match MatchEntry(Chomp(line))
    case None => None
    case Some(m) => Some(Unescape(m.raw))
  }

  lemma {:induction false} ChompAppend(a: string, b: string)
    ensures OneLine(a) ==> Chomp(a + b) == a + Chomp(b)
    ensures !OneLine(a) ==> Chomp(a + b) == Chomp(a) && |Chomp(a)| < |a|
  {
    if a == "" {
      assert a + b == b;
    } else {
      assert (a + b)[0] == a[0] && (a + b)[1..] == a[1..] + b;
      ChompAppend(a[1..], b);
      OneLineAppend([a[0]], a[1..]);
      assert a == [a[0]] + a[1..];
    }
  }

  lemma {:induction false} ChompLine(pre: string, raw: string, tail: string)
    requires OneLine(pre) && OneLine(raw)
    ensures Chomp(Line(pre, raw, tail)) == Line(pre, raw, Chomp(tail))
  {
    ChompAppend(pre, "\"" + (raw + ("\"" + tail)));
    ChompAppend("\"", raw + ("\"" + tail));
    ChompAppend(raw, "\"" + tail);
    ChompAppend("\"", tail);
  }

  lemma {:induction false} ReadsValue(pre: string, raw: string, tail: string)
    requires IsHead(pre) && OneLine(pre) && OneLine(raw) && '"' !in tail
    ensures ReadLine(Line(pre, raw, tail)) == Some(Unescape(raw))
  {
    ChompLine(pre, raw, tail);
    assert forall i :: 0 <= i < |Chomp(tail)| ==> Chomp(tail)[i] == tail[i];
    EntryMatches(pre, raw, Chomp(tail));
  }

  // ---------------------------------------------------------------- the lens laws

  lemma {:induction false} BrokenValueReads(pre: string, raw: string, tail: string)
    requires IsHead(pre) && OneLine(pre) && !OneLine(raw)
    ensures ReadLine(Line(pre, raw, tail)).Some? ==> OneLine(ReadLine(Line(pre, raw, tail)).value)
  {
    hide Chomp, LastQuote, Unescape, MatchHead;
    var c := Chomp(raw);
    ChompAppend(pre, "\"" + (raw + ("\"" + tail)));
    ChompAppend("\"", raw + ("\"" + tail));
    ChompAppend(raw, "\"" + tail);
    assert Chomp(Line(pre, raw, tail)) == pre + ("\"" + c);
    HeadThenQuote(pre, c);
    assert ("\"" + c)[1..] == c;
    if LastQuote(c) < |c| {
      UnescapeKeepsLines(c[..LastQuote(c)]);
    }
  }

  /** Text followed by a piece that starts with a quote never reads as the text alone. */
  lemma {:induction false} LeftoverShows(text: string, rest: string)
    requires rest != "" && rest[0] == '"'
    ensures Unescape(Escape(text) + rest) != text
    decreases |text|
  {
    hide Escape, Unescape;
    EscapeStep(text);
    if text == "" {
      assert Escape(text) + rest == rest;
      assert rest == [rest[0]] + rest[1..];
      UnescapeStep(rest[0], rest[1..]);
    } else {
      LeftoverShows(text[1..], rest);
      var more := Escape(text[1..]) + rest;
      assert text == [text[0]] + text[1..];
      if text[0] == '"' {
        assert Escape(text) + rest == "\\\"" + more;
        UnescapeQuote(more);
      } else {
        assert Escape(text) + rest == [text[0]] + more;
        UnescapeStep(text[0], more);
      }
    }
  }

  lemma {:induction false} EscapeStep(s: string)
    ensures s == "" ==> Escape(s) == ""
    ensures s != "" ==> Escape(s) == (if s[0] == '"' then "\\\"" else [s[0]]) + Escape(s[1..])
  {
  }

  lemma {:induction false} UnescapeQuote(s: string)
    ensures Unescape("\\\"" + s) == "\"" + Unescape(s)
  {
    assert ("\\\"" + s)[2..] == s;
  }

  lemma {:induction false} UnescapeStep(c: char, s: string)
    ensures var u := Unescape([c] + s);
            if c == '\\' && s != "" && s[0] == '"' then u != "" && u[0] == '"' else u == [c] + Unescape(s)
  {
    assert ([c] + s)[1..] == s;
  }

  /**
   * Put-get, for any old value: the parser reads the text with what is left over of the old value, and
   * so the text itself if and only if the old value is hash-safe and the text has no line break.
   */
  lemma {:induction false} PutGet(keyPart: string, pre: string, raw: string, tail: string, text: string)
    requires WellFormed(keyPart, pre, tail) && (HashSafe(raw) || OneLine(raw))
    ensures var r := PatchLine(Line(pre, raw, tail), keyPart, text);
            && r.Some?
            && (OneLine(text) ==> ReadLine(r.value) == Some(Unescape(Escape(text) + Leftover(raw))))
            && (ReadLine(r.value) == Some(text) <==> HashSafe(raw) && OneLine(text))
  {
    hide PatchLine, HashSafe, Leftover, ReadLine, Escape, Unescape;
    PatchIs(keyPart, pre, raw, tail, text);
    EscapeKeepsLines(text);
    var rest := Leftover(raw);
    OneLineAppend(Escape(text), rest);
    assert OneLine(rest);
    if OneLine(text) {
      ReadsValue(pre, Escape(text) + rest, tail);
      if rest == "" {
        assert Escape(text) + rest == Escape(text);
        UnescapeEscape(text);
      } else {
        LeftoverShows(text, rest);
      }
    } else {
      BrokenValueReads(pre, Escape(text) + rest, tail);
    }
  }

  /**
   * Get-put: writing back what was read gives the same line if and only if the raw value escapes its
   * quotes and shows no bare comment sign.
   */
  lemma {:induction false} GetPut(keyPart: string, pre: string, raw: string, tail: string)
    requires WellFormed(keyPart, pre, tail)
    ensures PatchLine(Line(pre, raw, tail), keyPart, Unescape(raw)) == Some(Line(pre, raw, tail)) <==>
            HashSafe(raw) && QuotesEscaped(raw)
  {
    hide PatchLine, WellFormed, HashSafe, Leftover, Escape, Unescape, QuotesEscaped, Line;
    EscapeUnescape(raw);
    PatchIs(keyPart, pre, raw, tail, Unescape(raw));
    LineInjective(pre, Escape(Unescape(raw)) + Leftover(raw), raw, tail);
    assert Leftover(raw) == "" ==> Escape(Unescape(raw)) + Leftover(raw) == Escape(Unescape(raw));
  }

  /**
   * Put-put, for any old value: the second of two patches wins if and only if the first one leaves over
   * the same piece; on a hash-safe old value that means that the first text, escaped, is hash-safe.
   */
  lemma {:induction false} PutPut(keyPart: string, pre: string, raw: string, tail: string, text: string, again: string)
    requires WellFormed(keyPart, pre, tail)
    ensures var line := Line(pre, raw, tail);
            var r := PatchLine(line, keyPart, text);
            && r.Some?
            && (PatchLine(r.value, keyPart, again) == PatchLine(line, keyPart, again) <==>
                Leftover(Escape(text) + Leftover(raw)) == Leftover(raw))
            && (HashSafe(raw) ==>
                  (PatchLine(r.value, keyPart, again) == PatchLine(line, keyPart, again) <==> HashSafe(Escape(text))))
  {
    hide PatchLine, WellFormed, HashSafe, Leftover, Escape, Line;
    var rest := Leftover(raw);
    var rest2 := Leftover(Escape(text) + rest);
    PatchIs(keyPart, pre, raw, tail, text);
    PatchIs(keyPart, pre, raw, tail, again);
    PatchIs(keyPart, pre, Escape(text) + rest, tail, again);
    LineInjective(pre, Escape(again) + rest2, Escape(again) + rest, tail);
    assert Escape(again) + rest2 == Escape(again) + rest <==> rest2 == rest by {
      assert (Escape(again) + rest2)[|Escape(again)|..] == rest2;
      assert (Escape(again) + rest)[|Escape(again)|..] == rest;
    }
    assert rest == "" ==> Escape(text) + rest == Escape(text);
  }

  /** No quote directly follows a backslash. */
  predicate NoBackslashBeforeQuote(text: string) {
    forall i :: 0 < i < |text| && text[i] == '"' ==> text[i - 1] != '\\'
  }

  lemma {:induction false} ScanEscaped(text: string, e: bool)
    requires NoBackslashBeforeQuote(text) && (e ==> text == "" || text[0] != '"')
    ensures ScanFrom(Escape(text), true, e).End? && ScanFrom(Escape(text), true, e).inQuotes
  {
    hide ScanFrom, Escape;
    EscapeStep(text);
    if text == "" {
      ScanEnds(true, e);
    } else {
      var rest := text[1..];
      assert NoBackslashBeforeQuote(rest) by {
        assert forall i :: 0 <= i < |rest| ==> rest[i] == text[i + 1];
      }
      ScanStep(Escape(text), true, e);
      if text[0] == '"' {
        var after := "\"" + Escape(rest);
        assert Escape(text)[1..] == after && after[1..] == Escape(rest);
        ScanStep(after, true, true);
        ScanEscaped(rest, false);
      } else {
        assert Escape(text)[1..] == Escape(rest);
        ScanEscaped(rest, NextEscape(text[0], e));
      }
    }
  }

  lemma {:induction false} ScanEnds(q: bool, e: bool)
    ensures ScanFrom("", q, e) == End(q, e)
  {
  }

  /** Texts without a backslash directly before a quote are safe, also those ending in a backslash. */
  lemma {:induction false} PlainTextIsHashSafe(text: string)
    requires NoBackslashBeforeQuote(text)
    ensures HashSafe(Escape(text))
  {
    ScanEscaped(text, false);
  }

  lemma {:induction false} EscapedPiece()
    ensures Escape("\\\"#") == "\\\\\"#"
  {
    hide Escape;
    EscapeCons('\\', "\"#");
    EscapeCons('"', "#");
    EscapeCons('#', "");
    EscapeStep("");
    assert ['\\'] + "\"#" == "\\\"#" && ['"'] + "#" == "\"#" && ['#'] + "" == "#";
    assert ['\\'] + ("\\\"" + (['#'] + "")) == "\\\\\"#";
  }

  lemma {:induction false} EscapeCons(c: char, s: string)
    ensures Escape([c] + s) == (if c == '"' then "\\\"" else [c]) + Escape(s)
  {
    assert ([c] + s)[1..] == s;
  }

  /** A backslash before a quote can make a later patch splice wrongly. */
  lemma {:induction false} BackslashQuoteHashIsUnsafe()
    ensures !HashSafe(Escape("\\\"#"))
  {
    EscapedPiece();
    hide Escape;
    assert "\\\\\"#" == ['\\'] + (['\\'] + (['"'] + (['#'] + "")));
    ScanCons('#', "", false, false);
    ScanCons('"', ['#'] + "", true, false);
    ScanCons('\\', ['"'] + (['#'] + ""), true, true);
    ScanCons('\\', ['\\'] + (['"'] + (['#'] + "")), true, false);
  }

  lemma {:induction false} ScanCons(c: char, s: string, q: bool, e: bool)
    ensures ScanFrom([c] + s, q, e) ==
            if !e && !q && c == '#' then Comment(0) else Later(ScanFrom(s, NextQuotes(c, q, e), NextEscape(c, e)))
  {
    assert ([c] + s)[1..] == s;
  }

  /** A line the program can meet: the entry of the key `k` with its version, without a tail. */
  lemma {:induction false} AWellFormedLine()
    ensures WellFormed("k:0", " k:0 ", "")
  {
    HeadOfTheLine();
    assert Find(" k:0 ", "k:0", 0) == Some(1) by {
      assert " k:0 "[1..4] == "k:0" && " k:0 "[0..3] == " k:";
      assert OccursAt(" k:0 ", "k:0", 1) && !OccursAt(" k:0 ", "k:0", 0);
    }
    assert ScanFrom("k:0 ", false, false) == End(false, false) by {
      hide ScanFrom;
      assert "k:0 " == ['k'] + ([':'] + (['0'] + ([' '] + "")));
      ScanEnds(false, false);
      ScanCons(' ', "", false, false);
      ScanCons('0', [' '] + "", false, false);
      ScanCons(':', ['0'] + ([' '] + ""), false, false);
      ScanCons('k', [':'] + (['0'] + ([' '] + "")), false, false);
    }
    assert " k:0 "[1..] == "k:0 ";
  }

  lemma {:induction false} HeadOfTheLine()
    ensures IsHead(" k:0 ") && OneLine(" k:0 ")
  {
    hide MatchHead;
    HeadMatches(" ", "k", "", "", "0", " ");
    assert " " + ("k" + ("" + (":" + ("" + ("0" + " "))))) == " k:0 ";
  }

  /**
   * The smallest such run: the text is written correctly into the line, but the next text does not
   * replace it, as the quote and the comment sign of the first one stay behind it.
   */
  lemma {:induction false} SecondPatchLeavesAPiece()
    ensures PatchLine(Line(" k:0 ", "a", ""), "k:0", "\\\"#") == Some(Line(" k:0 ", Escape("\\\"#"), ""))
    ensures PatchLine(Line(" k:0 ", Escape("\\\"#"), ""), "k:0", "b") ==
            Some(Line(" k:0 ", "b" + "\"#", ""))
  {
    hide PatchLine, Line, WellFormed, HashSafe, Escape, Leftover;
    AWellFormedLine();
    WhatIsLeft();
    PatchIs("k:0", " k:0 ", "a", "", "\\\"#");
    PatchIs("k:0", " k:0 ", Escape("\\\"#"), "", "b");
    assert Escape("\\\"#") + "" == Escape("\\\"#");
  }

  lemma {:induction false} WhatIsLeft()
    ensures Leftover("a") == "" && Escape("b") == "b" && Leftover(Escape("\\\"#")) == "\"#"
  {
    assert "a"[1..] == "" && "b"[1..] == "";
    assert HashSafe("a") && Escape("b") == "b";
    hide HashSafe, Leftover, Escape, ScanFrom;
    BackslashQuoteHashIsUnsafe();
    EscapedPiece();
    var raw := Escape("\\\"#");
    var r := Leftover(raw);
    assert raw[|raw| - |r|] == '"';
    assert |r| == 2;
  }
}
