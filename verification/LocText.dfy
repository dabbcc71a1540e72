/**
 * Localization text: character classes, escaping of quotes, splitting text into lines, and
 * the entry pattern `key:version "value"` of the parser.
 */
module LocText {
  import opened BatchTypes

  // ---------------------------------------------------------------- characters

  /** The characters at which Python's splitlines breaks a text. */
  predicate IsBreak(c: char) {
    var n := c as int;
    (0x0A <= n <= 0x0D) || (0x1C <= n <= 0x1E) || n == 0x85 || n == 0x2028 || n == 0x2029
  }

  /** White space as the pattern's \s sees it. */
  predicate IsSpace(c: char) {
    var n := c as int;
    IsBreak(c) || n == 0x09 || n == 0x1F || n == 0x20 || n == 0xA0 || n == 0x1680 ||
    (0x2000 <= n <= 0x200A) || n == 0x202F || n == 0x205F || n == 0x3000
  }

  /** The characters, one by one: line feed to carriage return, the separators, and the two of Unicode. */
  lemma {:induction false} Characters(c: char)
    ensures IsBreak(c) <==>
            c in {'\n', '\U{0B}', '\U{0C}', '\r', '\U{1C}', '\U{1D}', '\U{1E}', '\U{85}', '\U{2028}', '\U{2029}'}
    ensures IsSpace(c) <==>
            || IsBreak(c) || c in {'\t', ' ', '\U{1F}', '\U{A0}', '\U{1680}', '\U{202F}', '\U{205F}', '\U{3000}'}
            || '\U{2000}' <= c <= '\U{200A}'
  {
  }

  predicate IsDigit(c: char) {
    '0' <= c <= '9'
  }

  predicate IsKeyChar(c: char) {
    c != ':' && !IsSpace(c)
  }

  predicate OneLine(s: string) {
    forall i :: 0 <= i < |s| ==> !IsBreak(s[i])
  }

  // ---------------------------------------------------------------- escaping

  /** replace('"', '\"') */
  function Escape(s: string): string {
    if s == "" then ""
    else if s[0] == '"' then "\\\"" + Escape(s[1..])
    else [s[0]] + Escape(s[1..])
  }

  /** replace('\"', '"') */
  function Unescape(s: string): string {
    if s == "" then ""
    else if |s| >= 2 && s[0] == '\\' && s[1] == '"' then "\"" + Unescape(s[2..])
    else [s[0]] + Unescape(s[1..])
  }

  /** Unescaping undoes escaping for every string, whatever its backslashes. */
  lemma {:induction false} UnescapeEscape(s: string)
    ensures Unescape(Escape(s)) == s
  {
    if s != "" {
      UnescapeEscape(s[1..]);
      if s[0] == '"' {
        assert Escape(s)[2..] == Escape(s[1..]);
      } else {
        assert Escape(s)[1..] == Escape(s[1..]);
        assert |s| > 1 ==> Escape(s[1..])[0] == '\\' || Escape(s[1..])[0] == s[1];
        if |s| > 1 && s[1] == '"' {
          assert Escape(s[1..])[0] == '\\';
        }
      }
    }
  }

  /** Every quote directly follows a backslash. */
  predicate QuotesEscaped(s: string) {
    forall i :: 0 <= i < |s| && s[i] == '"' ==> i > 0 && s[i - 1] == '\\'
  }

  /** Escaping never makes an unescaped text shorter than it was, and restores it iff all quotes were escaped. */
  lemma {:induction false} EscapeUnescape(s: string)
    ensures |Escape(Unescape(s))| >= |s|
    ensures Escape(Unescape(s)) == s <==> QuotesEscaped(s)
    decreases |s|
  {
    if s != "" {
      if |s| >= 2 && s[0] == '\\' && s[1] == '"' {
        var t := s[2..];
        EscapeUnescape(t);
        assert Unescape(s)[1..] == Unescape(t);
        assert Escape(Unescape(s)) == "\\\"" + Escape(Unescape(t));
        assert s == "\\\"" + t;
        QuotesAfterPair(t);
      } else {
        var t := s[1..];
        EscapeUnescape(t);
        assert Unescape(s)[1..] == Unescape(t);
        assert s == [s[0]] + t;
        if s[0] == '"' {
          assert |Escape(Unescape(s))| > |s|;
        } else {
          assert Escape(Unescape(s)) == [s[0]] + Escape(Unescape(t));
          QuotesAfterPlain(s[0], t);
        }
      }
    }
  }

  lemma {:induction false} QuotesAfterPair(t: string)
    ensures QuotesEscaped("\\\"" + t) <==> QuotesEscaped(t)
  {
    var s := "\\\"" + t;
    assert forall i :: 0 <= i < |t| ==> s[i + 2] == t[i];
    if QuotesEscaped(s) {
      forall i | 0 <= i < |t| && t[i] == '"' ensures i > 0 && t[i - 1] == '\\' {
        assert s[i + 2] == '"' && s[i + 1] == '\\';
      }
    }
  }

  lemma {:induction false} QuotesAfterPlain(c: char, t: string)
    requires c != '"' && (c == '\\' ==> t == "" || t[0] != '"')
    ensures QuotesEscaped([c] + t) <==> QuotesEscaped(t)
  {
    var s := [c] + t;
    assert forall i :: 0 <= i < |t| ==> s[i + 1] == t[i];
    if QuotesEscaped(s) {
      forall i | 0 <= i < |t| && t[i] == '"' ensures i > 0 && t[i - 1] == '\\' {
        assert s[i + 1] == '"' && s[i] == '\\';
      }
    }
  }

  lemma {:induction false} EscapeAppend(a: string, b: string)
    ensures Escape(a + b) == Escape(a) + Escape(b)
  {
    if a == "" {
      assert a + b == b;
    } else {
      assert (a + b)[1..] == a[1..] + b;
      EscapeAppend(a[1..], b);
    }
  }

  lemma {:induction false} EscapeKeepsLines(s: string)
    ensures OneLine(Escape(s)) <==> OneLine(s)
  {
    if s != "" {
      EscapeKeepsLines(s[1..]);
      assert s == [s[0]] + s[1..];
      if s[0] == '"' {
        OneLineAppend("\\\"", Escape(s[1..]));
      } else {
        OneLineAppend([s[0]], Escape(s[1..]));
      }
      OneLineAppend([s[0]], s[1..]);
    }
  }

  lemma {:induction false} OneLineAppend(a: string, b: string)
    ensures OneLine(a + b) <==> OneLine(a) && OneLine(b)
  {
    var s := a + b;
    assert forall i :: 0 <= i < |a| ==> s[i] == a[i];
    assert forall i :: 0 <= i < |b| ==> s[|a| + i] == b[i];
  }

  lemma {:induction false} UnescapeKeepsLines(s: string)
    requires OneLine(s)
    ensures OneLine(Unescape(s))
    decreases |s|
  {
    if s != "" {
      if |s| >= 2 && s[0] == '\\' && s[1] == '"' {
        UnescapeKeepsLines(s[2..]);
      } else {
        UnescapeKeepsLines(s[1..]);
      }
    }
  }

  // ---------------------------------------------------------------- the entry pattern

  function TakeWhile(s: string, p: char -> bool): (r: string)
    ensures |r| <= |s|
  {
    if s == "" || !p(s[0]) then "" else [s[0]] + TakeWhile(s[1..], p)
  }

  function DropWhile(s: string, p: char -> bool): (r: string)
    ensures |r| <= |s|
    ensures r != "" ==> !p(r[0])
  {
    if s == "" || !p(s[0]) then s else DropWhile(s[1..], p)
  }

  lemma {:induction false} StopsInside(a: string, b: string, p: char -> bool)
    requires DropWhile(a, p) != ""
    ensures DropWhile(a + b, p) == DropWhile(a, p) + b && TakeWhile(a + b, p) == TakeWhile(a, p)
  {
    assert (a + b)[1..] == a[1..] + b;
    if p(a[0]) {
      StopsInside(a[1..], b, p);
    }
  }

  lemma {:induction false} OneMoreTaken(c: char, s: string, p: char -> bool)
    ensures p(c) ==> DropWhile([c] + s, p) == DropWhile(s, p) && TakeWhile([c] + s, p) == [c] + TakeWhile(s, p)
    ensures !p(c) ==> DropWhile([c] + s, p) != ""
  {
    assert ([c] + s)[1..] == s;
  }

  lemma {:induction false} RunsThrough(a: string, b: string, p: char -> bool)
    requires DropWhile(a, p) == ""
    ensures DropWhile(a + b, p) == DropWhile(b, p) && TakeWhile(a + b, p) == a + TakeWhile(b, p)
  {
    hide DropWhile, TakeWhile;
    if a == "" {
      assert a + b == b && a + TakeWhile(b, p) == TakeWhile(b, p);
    } else {
      var c, rest := a[0], a[1..];
      assert a == [c] + rest && a + b == [c] + (rest + b);
      OneMoreTaken(c, rest, p);
      OneMoreTaken(c, rest + b, p);
      RunsThrough(rest, b, p);
      assert [c] + (rest + TakeWhile(b, p)) == a + TakeWhile(b, p);
    }
  }

  lemma {:induction false} WhileAppend(a: string, b: string, p: char -> bool)
    requires b != "" && !p(b[0])
    ensures DropWhile(a + b, p) == DropWhile(a, p) + b && TakeWhile(a + b, p) == TakeWhile(a, p)
  {
    if DropWhile(a, p) == "" {
      RunsThrough(a, b, p);
      RunsThrough(a, "", p);
      assert a + "" == a && TakeWhile("", p) == "";
      assert TakeWhile(b, p) == "" && DropWhile(b, p) == b;
    } else {
      StopsInside(a, b, p);
    }
  }

  lemma {:induction false} AllTaken(a: string, p: char -> bool)
    requires forall i :: 0 <= i < |a| ==> p(a[i])
    ensures DropWhile(a, p) == "" && TakeWhile(a, p) == a
  {
    if a != "" {
      AllTaken(a[1..], p);
    }
  }

  datatype Head = Head(key: string, version: string, rest: string)

  /** Matches `\s*([^:\s]+)\s*:\s*([0-9]*)\s*`; each repetition is maximal, as no shorter one can succeed. */
  function MatchHead(line: string): Option<Head> {
    var s1 := DropWhile(line, IsSpace);
    var key := TakeWhile(s1, IsKeyChar);
    var s2 := DropWhile(DropWhile(s1, IsKeyChar), IsSpace);
    if key == "" || s2 == "" || s2[0] != ':' then None
    else
      var s3 := DropWhile(s2[1..], IsSpace);
      Some(Head(key, TakeWhile(s3, IsDigit), DropWhile(DropWhile(s3, IsDigit), IsSpace)))
  }

  /** The index of the last quote, or the length. */
  function LastQuote(s: string): (i: nat)
    ensures i <= |s|
    ensures i < |s| ==> s[i] == '"' && forall j :: i < j < |s| ==> s[j] != '"'
    ensures i == |s| ==> '"' !in s
  {
    if s == "" then 0
    else if s[|s| - 1] == '"' then |s| - 1
    else
      var i := LastQuote(s[..|s| - 1]);
      if i == |s| - 1 then |s| else i
  }

  datatype RawEntry = RawEntry(key: string, version: string, raw: string)

  /** The pattern on one line: the value reaches greedily up to the last quote. */
  function MatchEntry(line: string): Option<RawEntry> {
    match MatchHead(line)
    case None => None
    case Some(h) =>
      if h.rest == "" || h.rest[0] != '"' || LastQuote(h.rest[1..]) == |h.rest[1..]| then None
      else Some(RawEntry(h.key, h.version, h.rest[1..][..LastQuote(h.rest[1..])]))
  }

  /** The text is exactly a key with its colon and version, up to where the value's quote must follow. */
  predicate IsHead(pre: string) {
    MatchHead(pre).Some? && MatchHead(pre).value.rest == ""
  }

  lemma {:induction false} TakesJust(a: string, b: string, p: char -> bool)
    requires (forall i :: 0 <= i < |a| ==> p(a[i])) && (b == "" || !p(b[0]))
    ensures DropWhile(a + b, p) == b && TakeWhile(a + b, p) == a
  {
    AllTaken(a, p);
    if b == "" {
      assert a + b == a;
    } else {
      WhileAppend(a, b, p);
      assert "" + b == b;
    }
  }

  ghost predicate Blank(s: string) {
    forall i :: 0 <= i < |s| ==> IsSpace(s[i])
  }

  /** The pattern's head: a key without colons and white space, a colon, and perhaps a version in digits. */
  lemma {:induction false} HeadMatches(ws1: string, key: string, ws2: string, ws3: string, version: string, ws4: string)
    requires Blank(ws1) && Blank(ws2) && Blank(ws3) && Blank(ws4)
    requires key != "" && forall i :: 0 <= i < |key| ==> key[i] != ':' && !IsSpace(key[i])
    requires forall i :: 0 <= i < |version| ==> '0' <= version[i] <= '9'
    ensures MatchHead(ws1 + (key + (ws2 + (":" + (ws3 + (version + ws4)))))) == Some(Head(key, version, ""))
  {
    hide DropWhile, TakeWhile, IsSpace;
    ColonAndDigits(version);
    var end := ws3 + (version + ws4);
    TakesJust(ws1, key + (ws2 + (":" + end)), IsSpace);
    assert (ws2 + (":" + end))[0] == if ws2 == "" then ':' else ws2[0];
    TakesJust(key, ws2 + (":" + end), IsKeyChar);
    TakesJust(ws2, ":" + end, IsSpace);
    assert (":" + end)[1..] == end;
    if version == "" {
      assert version + ws4 == ws4;
      assert forall i :: 0 <= i < |end| ==> IsSpace(end[i]);
      assert end + "" == end;
      TakesJust(end, "", IsSpace);
      NothingTaken();
    } else {
      assert (version + ws4)[0] == version[0];
      TakesJust(ws3, version + ws4, IsSpace);
      TakesJust(version, ws4, IsDigit);
      assert ws4 + "" == ws4;
      TakesJust(ws4, "", IsSpace);
    }
  }

  lemma {:induction false} NothingTaken()
    ensures forall p :: TakeWhile("", p) == "" && DropWhile("", p) == ""
  {
  }

  lemma {:induction false} ColonAndDigits(version: string)
    requires forall i :: 0 <= i < |version| ==> '0' <= version[i] <= '9'
    ensures !IsSpace(':') && forall i :: 0 <= i < |version| ==> !IsSpace(version[i])
    ensures forall c :: IsSpace(c) ==> !IsKeyChar(c) && !IsDigit(c)
  {
  }

  lemma {:induction false} HeadThenQuote(pre: string, body: string)
    requires IsHead(pre)
    ensures MatchHead(pre + ("\"" + body)) == Some(MatchHead(pre).value.(rest := "\"" + body))
  {
    hide DropWhile, TakeWhile, IsSpace;
    var b := "\"" + body;
    QuoteIsNoSpace();
    var s1 := DropWhile(pre, IsSpace);
    WhileAppend(pre, b, IsSpace);
    var k2 := DropWhile(s1, IsKeyChar);
    var s2 := DropWhile(k2, IsSpace);
    assert s2 != "" && s2[0] == ':';
    KeyEndsInside(s1, b);
    WhileAppend(k2, b, IsSpace);
    assert (s2 + b)[1..] == s2[1..] + b;
    WhileAppend(s2[1..], b, IsSpace);
    var s3 := DropWhile(s2[1..], IsSpace);
    WhileAppend(s3, b, IsDigit);
    WhileAppend(DropWhile(s3, IsDigit), b, IsSpace);
    assert MatchHead(pre).value.rest + b == b;
    assert (s2 + b)[0] == ':';
  }

  lemma {:induction false} QuoteIsNoSpace()
    ensures !IsSpace('"')
  {
  }

  lemma {:induction false} KeyEndsInside(s1: string, b: string)
    requires DropWhile(DropWhile(s1, IsKeyChar), IsSpace) != ""
    ensures DropWhile(s1 + b, IsKeyChar) == DropWhile(s1, IsKeyChar) + b
    ensures TakeWhile(s1 + b, IsKeyChar) == TakeWhile(s1, IsKeyChar)
  {
    StopsInside(s1, b, IsKeyChar);
  }

  lemma {:induction false} LastQuoteAt(a: string, b: string)
    requires '"' !in b
    ensures LastQuote(a + ("\"" + b)) == |a|
  {
    hide LastQuote;
    var s := a + ("\"" + b);
    assert s[|a|] == '"';
    assert forall j :: |a| < j < |s| ==> s[j] == b[j - |a| - 1];
    assert s[|a|] in s;
  }

  /** A head, a quoted value and a quote-free tail are matched as such. */
  lemma {:induction false} EntryMatches(pre: string, raw: string, tail: string)
    requires IsHead(pre) && '"' !in tail
    ensures MatchEntry(pre + ("\"" + (raw + ("\"" + tail)))) ==
            Some(RawEntry(MatchHead(pre).value.key, MatchHead(pre).value.version, raw))
  {
    var body := raw + ("\"" + tail);
    HeadThenQuote(pre, body);
    LastQuoteAt(raw, tail);
    assert ("\"" + body)[1..] == body;
    assert body[..|raw|] == raw;
  }
}
