/**
 * Patching a whole file: every mapped line is spliced, and the language headers are
 * normalized to a single one by popping the later ones from the back of the list.
 */
module FilePatch {
  import opened LocText
  import opened LinePatch

  // ---------------------------------------------------------------- headers

  predicate IsLangChar(c: char) {
    'a' <= c <= 'z' || 'A' <= c <= 'Z' || '0' <= c <= '9' || c == '_' || c == '-'
  }

  /** Matches `^\s*l_[\w-]+:` */
  predicate IsHeader(line: string) {
    var s := DropWhile(line, IsSpace);
    |s| >= 2 && s[0] == 'l' && s[1] == '_' &&
    TakeWhile(s[2..], IsLangChar) != "" &&
    DropWhile(s[2..], IsLangChar) != "" && DropWhile(s[2..], IsLangChar)[0] == ':'
  }

  /** A line is a header just when it has this form, whatever follows the colon. */
  lemma {:induction false} HeaderForm(line: string) returns (blank: string, name: string, rest: string)
    requires IsHeader(line)
    ensures line == blank + ("l_" + (name + (":" + rest)))
    ensures Blank(blank) && name != "" && forall i :: 0 <= i < |name| ==> IsLangChar(name[i])
  {
    var s := DropWhile(line, IsSpace);
    Parts(line, IsSpace);
    Parts(s[2..], IsLangChar);
    blank, name, rest := TakeWhile(line, IsSpace), TakeWhile(s[2..], IsLangChar), DropWhile(s[2..], IsLangChar)[1..];
    assert DropWhile(s[2..], IsLangChar) == ":" + rest;
    assert s == "l_" + s[2..];
  }

  lemma {:induction false} Parts(s: string, p: char -> bool)
    ensures s == TakeWhile(s, p) + DropWhile(s, p)
    ensures forall i :: 0 <= i < |TakeWhile(s, p)| ==> p(TakeWhile(s, p)[i])
  {
    hide TakeWhile, DropWhile;
    NothingTaken();
    if s != "" {
      assert s == [s[0]] + s[1..];
      OneMoreTaken(s[0], s[1..], p);
      StopsAt(s, p);
      Parts(s[1..], p);
    }
  }

  lemma {:induction false} StopsAt(s: string, p: char -> bool)
    ensures s != "" && !p(s[0]) ==> TakeWhile(s, p) == "" && DropWhile(s, p) == s
  {
  }

  lemma {:induction false} IsAHeader(blank: string, name: string, rest: string)
    requires Blank(blank) && name != "" && forall i :: 0 <= i < |name| ==> IsLangChar(name[i])
    ensures IsHeader(blank + ("l_" + (name + (":" + rest))))
  {
    hide DropWhile, TakeWhile;
    var s := "l_" + (name + (":" + rest));
    TakesJust(blank, s, IsSpace);
    assert s[2..] == name + (":" + rest);
    TakesJust(name, ":" + rest, IsLangChar);
  }

  /** The header lines of the configured languages are headers, and so are those in the source's comment. */
  lemma {:induction false} LanguagesAreHeaders(name: string)
    requires || name in ["english", "simp_chinese", "french", "german"]
             || name in ["spanish", "japanese", "korean", "polish"]
             || name in ["braz_por", "russian", "turkish", "zh-CN"]
    ensures IsHeader(HeaderLine("l_" + name))
  {
    PlainNames(name);
    hide IsHeader, IsLangChar;
    IsAHeader("", name, "\n");
    assert "" + ("l_" + (name + (":" + "\n"))) == "l_" + name + ":\n";
  }

  lemma {:induction false} PlainNames(name: string)
    requires || name in ["english", "simp_chinese", "french", "german"]
             || name in ["spanish", "japanese", "korean", "polish"]
             || name in ["braz_por", "russian", "turkish", "zh-CN"]
    ensures name != "" && forall i :: 0 <= i < |name| ==> IsLangChar(name[i])
  {
  }

  /** A name ends at white space or a colon. */
  lemma {:induction false} NameEnds(c: char)
    requires IsLangChar(c)
    ensures c != ':' && c != '"' && c != '.' && !IsSpace(c)
  {
  }

  function HeaderLine(targetKey: string): string {
    targetKey + ":\n"
  }

  function NonHeaders(lines: seq<string>): seq<string> {
    if lines == [] then []
    else if IsHeader(lines[0]) then NonHeaders(lines[1..])
    else [lines[0]] + NonHeaders(lines[1..])
  }

  /** The index of the first header, or the length. */
  function FirstHeader(lines: seq<string>): (i: nat)
    ensures i <= |lines|
    ensures i < |lines| ==> IsHeader(lines[i])
    ensures forall j :: 0 <= j < i ==> !IsHeader(lines[j])
  {
    if lines == [] then 0 else if IsHeader(lines[0]) then 0 else FirstHeader(lines[1..]) + 1
  }

  /** The first header replaced, the others removed; without a header, one is put on top. */
  function Normalized(lines: seq<string>, header: string): seq<string> {
    var f := FirstHeader(lines);
    if f < |lines| then lines[..f] + [header] + NonHeaders(lines[f + 1..]) else [header] + lines
  }

  lemma {:induction false} NonHeadersAppend(a: seq<string>, b: seq<string>)
    ensures NonHeaders(a + b) == NonHeaders(a) + NonHeaders(b)
  {
    if a == [] {
      assert a + b == b;
    } else {
      assert (a + b)[1..] == a[1..] + b;
      NonHeadersAppend(a[1..], b);
    }
  }

  lemma {:induction false} AllNonHeaders(a: seq<string>)
    requires forall i :: 0 <= i < |a| ==> !IsHeader(a[i])
    ensures NonHeaders(a) == a
  {
    if a != [] {
      AllNonHeaders(a[1..]);
    }
  }

  lemma {:induction false} NonHeadersHaveNone(a: seq<string>)
    ensures forall i :: 0 <= i < |NonHeaders(a)| ==> !IsHeader(NonHeaders(a)[i])
  {
    if a != [] {
      NonHeadersHaveNone(a[1..]);
    }
  }

  /** The later headers found by the scan, in order. */
  ghost predicate LaterHeaders(lines: seq<string>, first: nat, indices: seq<nat>, upTo: nat) {
    && (forall k :: 0 <= k < |indices| ==> first < indices[k] < upTo <= |lines| && IsHeader(lines[indices[k]]))
    && (forall j, k :: 0 <= j < k < |indices| ==> indices[j] < indices[k])
    && (forall i :: first < i < upTo <= |lines| && IsHeader(lines[i]) ==> i in indices)
  }

  /** In-place normalization: find, pop from the back, then replace or insert. */
  method NormalizeHeaders(lines: seq<string>, header: string) returns (newLines: seq<string>)
    ensures newLines == Normalized(lines, header)
  {
    hide IsHeader, FirstHeader, NonHeaders;
    newLines := lines;
    var first: int := -1;
    var indices: seq<nat> := [];
    for i := 0 to |lines|
      invariant first == -1 ==> indices == [] && forall j :: 0 <= j < i ==> !IsHeader(lines[j])
      invariant first != -1 ==> 0 <= first < i && IsHeader(lines[first]) &&
                                (forall j :: 0 <= j < first ==> !IsHeader(lines[j])) &&
                                LaterHeaders(lines, first, indices, i)
    {
      if IsHeader(lines[i]) {
        if first == -1 {
          first := i;
        } else {
          indices := indices + [i];
        }
      }
    }
    if first == -1 {
      newLines := [header] + newLines;
      return;
    }
    assert FirstHeader(lines) == first;
    newLines := PopAll(lines, first, indices);
    newLines := newLines[first := header];
  }

  /** Popping the collected indices in reverse order is filtering, and keeps the first header in place. */
  method PopAll(lines: seq<string>, first: nat, indices: seq<nat>) returns (newLines: seq<string>)
    requires first < |lines| && LaterHeaders(lines, first, indices, |lines|)
    ensures newLines == lines[..first + 1] + NonHeaders(lines[first + 1..])
  {
    hide IsHeader, NonHeaders, LaterHeaders;
    newLines := lines;
    assert indices[..|indices|] == indices;
    var k := |indices|;
    NothingAfter(lines);
    ghost var bound := |lines|;
    while k > 0
      invariant 0 <= k <= |indices|
      invariant first < bound <= |lines|
      invariant newLines == lines[..bound] + NonHeaders(lines[bound..])
      invariant LaterHeaders(lines, first, indices[..k], bound)
    {
      k := k - 1;
      var at := indices[k];
      LastHeader(lines, first, indices[..k + 1], bound);
      assert indices[..k + 1][..k] == indices[..k];
      PopIsFilter(lines, at, bound);
      PoppedTail(lines, at, bound);
      newLines := newLines[..at] + newLines[at + 1..];
      bound := at;
    }
    NoHeaderLeft(lines, first, bound);
    RestIsPlain(lines, first + 1, bound);
  }

  lemma {:induction false} LastHeader(lines: seq<string>, first: nat, indices: seq<nat>, bound: nat)
    requires first < bound <= |lines| && indices != [] && LaterHeaders(lines, first, indices, bound)
    ensures var at := indices[|indices| - 1];
            && first < at < bound && IsHeader(lines[at])
            && (forall i :: at < i < bound ==> !IsHeader(lines[i]))
            && LaterHeaders(lines, first, indices[..|indices| - 1], at)
  {
    hide IsHeader;
    var k := |indices| - 1;
    forall i | first < i < indices[k] && IsHeader(lines[i]) ensures i in indices[..k] {
      assert i in indices;
    }
  }

  lemma {:induction false} NoHeaderLeft(lines: seq<string>, first: nat, bound: nat)
    requires first < bound <= |lines| && LaterHeaders(lines, first, [], bound)
    ensures forall i :: first < i < bound ==> !IsHeader(lines[i])
  {
    hide IsHeader;
  }

  lemma {:induction false} NothingAfter(lines: seq<string>)
    ensures lines[..|lines|] + NonHeaders(lines[|lines|..]) == lines
  {
  }

  lemma {:induction false} PopIsFilter(lines: seq<string>, at: nat, bound: nat)
    requires at < bound <= |lines|
    ensures var l := lines[..bound] + NonHeaders(lines[bound..]);
            at < |l| && l[..at] + l[at + 1..] == lines[..at] + (lines[at + 1..bound] + NonHeaders(lines[bound..]))
  {
    hide IsHeader;
  }

  lemma {:induction false} PoppedTail(lines: seq<string>, at: nat, bound: nat)
    requires at < bound <= |lines| && IsHeader(lines[at])
    requires forall i :: at < i < bound ==> !IsHeader(lines[i])
    ensures NonHeaders(lines[at..]) == lines[at + 1..bound] + NonHeaders(lines[bound..])
  {
    assert lines[at..][1..] == lines[at + 1..];
    RestIsPlain(lines, at + 1, bound);
  }

  lemma {:induction false} RestIsPlain(lines: seq<string>, from: nat, bound: nat)
    requires from <= bound <= |lines| && forall i :: from <= i < bound ==> !IsHeader(lines[i])
    ensures NonHeaders(lines[from..]) == lines[from..bound] + NonHeaders(lines[bound..])
    ensures lines[..from] + NonHeaders(lines[from..]) == lines[..bound] + NonHeaders(lines[bound..])
  {
    hide IsHeader;
    assert lines[from..] == lines[from..bound] + lines[bound..];
    NonHeadersAppend(lines[from..bound], lines[bound..]);
    AllNonHeaders(lines[from..bound]);
    assert lines[..from] + lines[from..bound] == lines[..bound];
  }

  /**
   * All lines that are no headers survive in order, around the one header line, which stands where
   * the first header stood, or on top.
   */
  lemma {:induction false} NormalizedShape(lines: seq<string>, header: string)
    returns (pre: seq<string>, post: seq<string>)
    ensures Normalized(lines, header) == pre + [header] + post
    ensures pre + post == NonHeaders(lines)
    ensures |pre| == if FirstHeader(lines) < |lines| then FirstHeader(lines) else 0
  {
    hide IsHeader;
    var f := FirstHeader(lines);
    if f < |lines| {
      pre, post := lines[..f], NonHeaders(lines[f + 1..]);
      assert lines == lines[..f] + ([lines[f]] + lines[f + 1..]);
      NonHeadersAppend(lines[..f], [lines[f]] + lines[f + 1..]);
      AllNonHeaders(lines[..f]);
      assert ([lines[f]] + lines[f + 1..])[1..] == lines[f + 1..];
    } else {
      pre, post := [], lines;
      AllNonHeaders(lines);
      assert [header] + lines == [] + [header] + lines;
    }
  }

  lemma {:induction false} NormalizedParts(lines: seq<string>, header: string)
    returns (pre: seq<string>, post: seq<string>)
    ensures Normalized(lines, header) == pre + [header] + post
    ensures pre + post == NonHeaders(lines)
    ensures NonHeaders(pre) == pre && NonHeaders(post) == post
    ensures forall i :: 0 <= i < |pre| ==> !IsHeader(pre[i])
    ensures forall i :: 0 <= i < |post| ==> !IsHeader(post[i])
  {
    hide IsHeader;
    pre, post := NormalizedShape(lines, header);
    hide NonHeaders, Normalized;
    NonHeadersHaveNone(lines);
    assert forall i :: 0 <= i < |pre| ==> pre[i] == NonHeaders(lines)[i];
    assert forall i :: 0 <= i < |post| ==> post[i] == NonHeaders(lines)[|pre| + i];
    AllNonHeaders(pre);
    AllNonHeaders(post);
  }

  lemma {:induction false} NonHeadersOfOne(line: string)
    ensures NonHeaders([line]) == if IsHeader(line) then [] else [line]
  {
    hide IsHeader;
    assert [line][1..] == [];
  }

  /** Exactly one line matches the header pattern, the target's, provided the target's line does. */
  lemma {:induction false} ExactlyOneHeader(lines: seq<string>, header: string)
    ensures NonHeaders(Normalized(lines, header)) ==
            if IsHeader(header) then NonHeaders(lines) else Normalized(lines, header)
    ensures |Normalized(lines, header)| == |NonHeaders(lines)| + 1
    ensures forall i :: 0 <= i < |Normalized(lines, header)| && IsHeader(Normalized(lines, header)[i]) ==>
              Normalized(lines, header)[i] == header
  {
    var pre, post := NormalizedParts(lines, header);
    hide *;
    NonHeadersAppend(pre + [header], post);
    NonHeadersAppend(pre, [header]);
    NonHeadersOfOne(header);
  }

  lemma {:induction false} FirstHeaderIs(lines: seq<string>, f: nat)
    requires f < |lines| && IsHeader(lines[f]) && forall i :: 0 <= i < f ==> !IsHeader(lines[i])
    ensures FirstHeader(lines) == f
  {
    hide IsHeader;
  }

  /** A list with its header in place stays as it is. */
  lemma {:induction false} InPlaceIsFixed(pre: seq<string>, header: string, post: seq<string>)
    requires IsHeader(header) && NonHeaders(post) == post && forall i :: 0 <= i < |pre| ==> !IsHeader(pre[i])
    ensures Normalized(pre + [header] + post, header) == pre + [header] + post
  {
    hide IsHeader, NonHeaders, FirstHeader;
    var once := pre + [header] + post;
    FirstHeaderIs(once, |pre|);
    assert once[..|pre|] == pre && once[|pre| + 1..] == post;
  }

  lemma {:induction false} NormalizedIsFixed(lines: seq<string>, header: string)
    requires IsHeader(header)
    ensures Normalized(Normalized(lines, header), header) == Normalized(lines, header)
  {
    hide IsHeader, NonHeaders, Normalized;
    var pre, post := NormalizedParts(lines, header);
    InPlaceIsFixed(pre, header, post);
  }

  /** Normalizing twice is normalizing once if and only if the target's header line matches the pattern. */
  lemma {:induction false} NormalizeTwice(lines: seq<string>, header: string)
    ensures Normalized(Normalized(lines, header), header) == Normalized(lines, header) <==> IsHeader(header)
  {
    if IsHeader(header) {
      NormalizedIsFixed(lines, header);
    } else {
      hide *;
      ExactlyOneHeader(lines, header);
      ExactlyOneHeader(Normalized(lines, header), header);
    }
  }

  // ---------------------------------------------------------------- patching never makes or breaks a header

  lemma {:induction false} HeaderBeforeQuote(a: string, b: string, c: string)
    ensures IsHeader(a + ("\"" + b)) <==> IsHeader(a + ("\"" + c))
  {
    hide DropWhile, TakeWhile, IsSpace;
    QuoteIsNoSpace();
    var s := DropWhile(a, IsSpace);
    WhileAppend(a, "\"" + b, IsSpace);
    WhileAppend(a, "\"" + c, IsSpace);
    if |s| >= 2 {
      assert (s + ("\"" + b))[2..] == s[2..] + ("\"" + b);
      assert (s + ("\"" + c))[2..] == s[2..] + ("\"" + c);
      WhileAppend(s[2..], "\"" + b, IsLangChar);
      WhileAppend(s[2..], "\"" + c, IsLangChar);
    } else {
      assert (s + ("\"" + b))[|s|] == '"' && (s + ("\"" + c))[|s|] == '"';
    }
  }

  lemma {:induction false} SpliceShape(line: string, first: nat, last: nat, text: string)
    requires first < last < |line| && line[first] == '"'
    ensures line == line[..first] + ("\"" + line[first + 1..])
    ensures Splice(line, first, last, text) == line[..first] + ("\"" + (Escape(text) + line[last..]))
  {
  }

  /** A target line that is no header piles up: every further normalization puts one more on top. */
  lemma {:induction false} HeaderPilesUp(lines: seq<string>, header: string)
    requires !IsHeader(header)
    ensures Normalized(Normalized(lines, header), header) == [header] + Normalized(lines, header)
  {
    hide IsHeader, NonHeaders;
    ExactlyOneHeader(lines, header);
    var once := Normalized(lines, header);
    assert FirstHeader(once) == |once| by {
      assert forall i :: 0 <= i < |once| && IsHeader(once[i]) ==> once[i] == header;
    }
  }

  /** Such a target: a language whose key was entered as "english". */
  lemma {:induction false} EnglishIsNoHeader(lines: seq<string>)
    ensures var header := HeaderLine("english");
            Normalized(Normalized(lines, header), header) == [header] + Normalized(lines, header)
  {
    assert HeaderLine("english")[0] == 'e';
    HeaderPilesUp(lines, HeaderLine("english"));
  }

  lemma {:induction false} PatchKeepsHeader(line: string, keyPart: string, text: string)
    requires PatchLine(line, keyPart, text).Some?
    ensures IsHeader(PatchLine(line, keyPart, text).value) <==> IsHeader(line)
  {
    hide IsHeader, ValueSpan, Splice;
    var (first, last) := ValueSpan(line, keyPart).value;
    SpliceShape(line, first, last, text);
    HeaderBeforeQuote(line[..first], line[first + 1..], Escape(text) + line[last..]);
  }

  // ---------------------------------------------------------------- the whole file

  datatype LineInfo = LineInfo(lineNum: nat, keyPart: string)

  /** The first `n` entries of the key map point into the file. */
  predicate MapsInto(lines: seq<string>, keyMap: seq<LineInfo>, n: nat) {
    n <= |keyMap| && forall i :: 0 <= i < n ==> keyMap[i].lineNum < |lines|
  }

  /** The lines after the first `n` translations; every splice starts from the original line. */
  function PatchedLines(lines: seq<string>, translated: seq<string>, keyMap: seq<LineInfo>, n: nat): (r: seq<string>)
    requires n <= |translated| && MapsInto(lines, keyMap, n)
    ensures |r| == |lines|
  {
    if n == 0 then lines
    else
      var r := PatchedLines(lines, translated, keyMap, n - 1);
      var info := keyMap[n - 1];
      match PatchLine(lines[info.lineNum], info.keyPart, translated[n - 1])
      case None => r
      case Some(line) => r[info.lineNum := line]
  }

  method PatchFileContent(lines: seq<string>, texts: seq<string>, translated: seq<string>,
                          keyMap: seq<LineInfo>, targetKey: string)
    returns (newLines: seq<string>)
    requires MapsInto(lines, keyMap, if |texts| < |translated| then |texts| else |translated|)
    ensures var n := if |texts| < |translated| then |texts| else |translated|;
            newLines == Normalized(PatchedLines(lines, translated, keyMap, n), targetKey + ":\n")
  {
    hide PatchLine, Normalized;
    newLines := lines;
    var i := 0;
    while i < |texts| && i < |translated|
      invariant i <= |texts| && i <= |translated|
      invariant newLines == PatchedLines(lines, translated, keyMap, i)
    {
      var info := keyMap[i];
      var patched := Patch(lines[info.lineNum], info.keyPart, translated[i]);
      if patched.Some? {
        newLines := newLines[info.lineNum := patched.value];
      }
      i := i + 1;
    }
    newLines := NormalizeHeaders(newLines, HeaderLine(targetKey));
  }

  /** Lines that the key map does not mention are never altered. */
  lemma {:induction false} UnmappedLinesSurvive(lines: seq<string>, translated: seq<string>, keyMap: seq<LineInfo>,
                                                n: nat, k: nat)
    requires n <= |translated| && MapsInto(lines, keyMap, n) && k < |lines|
    requires forall i :: 0 <= i < n ==> keyMap[i].lineNum != k
    ensures PatchedLines(lines, translated, keyMap, n)[k] == lines[k]
  {
    hide PatchLine;
    if n > 0 {
      UnmappedLinesSurvive(lines, translated, keyMap, n - 1, k);
    }
  }

  /** With distinct line numbers every mapped line is the splice of its own translation, or as it was. */
  lemma {:induction false} MappedLineIsItsPatch(lines: seq<string>, translated: seq<string>, keyMap: seq<LineInfo>,
                                                n: nat, i: nat)
    requires n <= |translated| && MapsInto(lines, keyMap, n) && i < n
    requires forall j, k :: 0 <= j < k < n ==> keyMap[j].lineNum != keyMap[k].lineNum
    ensures var line := lines[keyMap[i].lineNum];
            PatchedLines(lines, translated, keyMap, n)[keyMap[i].lineNum] ==
            match PatchLine(line, keyMap[i].keyPart, translated[i]) case None => line case Some(patched) => patched
  {
    hide PatchLine;
    if i < n - 1 {
      MappedLineIsItsPatch(lines, translated, keyMap, n - 1, i);
    } else {
      UnmappedLinesSurvive(lines, translated, keyMap, n - 1, keyMap[i].lineNum);
    }
  }

  /**
   * When several entries of the key map name one line, the last one whose patch succeeds wins, and its
   * patch is made from the original line.
   */
  lemma {:induction false} LastPatchWins(lines: seq<string>, translated: seq<string>, keyMap: seq<LineInfo>,
                                         n: nat, i: nat)
    requires n <= |translated| && MapsInto(lines, keyMap, n) && i < n
    requires PatchLine(lines[keyMap[i].lineNum], keyMap[i].keyPart, translated[i]).Some?
    requires forall j :: i < j < n && keyMap[j].lineNum == keyMap[i].lineNum ==>
               PatchLine(lines[keyMap[j].lineNum], keyMap[j].keyPart, translated[j]).None?
    ensures PatchedLines(lines, translated, keyMap, n)[keyMap[i].lineNum] ==
            PatchLine(lines[keyMap[i].lineNum], keyMap[i].keyPart, translated[i]).value
  {
    hide PatchLine;
    if i < n - 1 {
      LastPatchWins(lines, translated, keyMap, n - 1, i);
    }
  }

  lemma {:induction false} PatchingKeepsHeaders(lines: seq<string>, translated: seq<string>, keyMap: seq<LineInfo>,
                                                n: nat, k: nat)
    requires n <= |translated| && MapsInto(lines, keyMap, n) && k < |lines|
    ensures IsHeader(PatchedLines(lines, translated, keyMap, n)[k]) <==> IsHeader(lines[k])
  {
    hide IsHeader, PatchLine;
    if n > 0 {
      PatchingKeepsHeaders(lines, translated, keyMap, n - 1, k);
      var info := keyMap[n - 1];
      if PatchLine(lines[info.lineNum], info.keyPart, translated[n - 1]).Some? {
        PatchKeepsHeader(lines[info.lineNum], info.keyPart, translated[n - 1]);
      }
    }
  }

  /** The lines of `lines` at whose place `original` has no header. */
  function KeptFrom(lines: seq<string>, original: seq<string>): seq<string>
    requires |lines| == |original|
  {
    if lines == [] then []
    else if IsHeader(original[0]) then KeptFrom(lines[1..], original[1..])
    else [lines[0]] + KeptFrom(lines[1..], original[1..])
  }

  lemma {:induction false} SameHeadersSameKept(lines: seq<string>, original: seq<string>)
    requires |lines| == |original| && forall k :: 0 <= k < |lines| ==> (IsHeader(lines[k]) <==> IsHeader(original[k]))
    ensures NonHeaders(lines) == KeptFrom(lines, original)
  {
    hide IsHeader;
    if lines != [] {
      SameHeadersSameKept(lines[1..], original[1..]);
    }
  }

  /**
   * The patched file: one header line, and around it, in order, one line for each line of the
   * original that is no header, namely its patched form.
   */
  lemma {:induction false} PatchedFileShape(lines: seq<string>, translated: seq<string>, keyMap: seq<LineInfo>,
                                            n: nat, targetKey: string)
    returns (pre: seq<string>, post: seq<string>)
    requires n <= |translated| && MapsInto(lines, keyMap, n)
    ensures Normalized(PatchedLines(lines, translated, keyMap, n), HeaderLine(targetKey)) ==
            pre + [HeaderLine(targetKey)] + post
    ensures pre + post == KeptFrom(PatchedLines(lines, translated, keyMap, n), lines)
    ensures forall i :: 0 <= i < |pre| ==> !IsHeader(pre[i])
    ensures forall i :: 0 <= i < |post| ==> !IsHeader(post[i])
  {
    hide IsHeader, PatchedLines;
    var patched := PatchedLines(lines, translated, keyMap, n);
    forall k | 0 <= k < |lines| ensures IsHeader(patched[k]) <==> IsHeader(lines[k]) {
      PatchingKeepsHeaders(lines, translated, keyMap, n, k);
    }
    SameHeadersSameKept(patched, lines);
    pre, post := NormalizedParts(patched, HeaderLine(targetKey));
  }
}
