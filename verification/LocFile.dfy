/**
 * Writing entries as a localization file and parsing it back.
 */
module LocFile {
  import opened BatchTypes
  import opened LocText

  datatype Entry = Entry(key: string, value: string)

  // ---------------------------------------------------------------- lines

  const NEWLINE: string := "\n"

  function Join(rows: seq<string>): string {
    if rows == [] then ""
    else if |rows| == 1 then rows[0]
    else rows[0] + (NEWLINE + Join(rows[1..]))
  }

  /** splitlines: a break ends the line read so far, CR LF being one break; a last line may lack its break. */
  function SplitFrom(s: string, line: string): seq<string>
    decreases |s|
  {
    if s == "" then (if line == "" then [] else [line])
    else if IsBreak(s[0]) then
      [line] + SplitFrom(s[if s[0] == '\r' && |s| > 1 && s[1] == '\n' then 2 else 1..], "")
    else SplitFrom(s[1..], line + [s[0]])
  }

  function SplitLines(s: string): seq<string> {
    SplitFrom(s, "")
  }

  lemma {:induction false} SplitOneLine(a: string, rest: string, line: string)
    requires OneLine(a)
    ensures SplitFrom(a + rest, line) == SplitFrom(rest, line + a)
    decreases |a|
  {
    if a == "" {
      assert a + rest == rest && line + a == line;
    } else {
      assert (a + rest)[0] == a[0] && (a + rest)[1..] == a[1..] + rest;
      SplitOneLine(a[1..], rest, line + [a[0]]);
      assert line + [a[0]] + a[1..] == line + a;
    }
  }

  lemma {:induction false} SplitAtNewline(rest: string, line: string)
    ensures SplitFrom(NEWLINE + rest, line) == [line] + SplitFrom(rest, "")
    ensures SplitFrom("", line) == if line == "" then [] else [line]
  {
    assert (NEWLINE + rest)[1..] == rest;
  }

  lemma {:induction false} JoinRows(first: string, others: seq<string>)
    ensures Join([first] + others) == if others == [] then first else first + (NEWLINE + Join(others))
  {
  }

  /** Splitting undoes joining for rows without breaks, the last of which is not empty. */
  lemma {:induction false} SplitJoin(rows: seq<string>)
    requires rows != [] && forall i :: 0 <= i < |rows| ==> OneLine(rows[i])
    ensures rows[|rows| - 1] != "" ==> SplitLines(Join(rows)) == rows
  {
    hide SplitFrom, OneLine, Join;
    var first, others := rows[0], rows[1..];
    assert rows == [first] + others && "" + first == first;
    JoinRows(first, others);
    if others == [] {
      SplitOneLine(first, "", "");
      SplitAtNewline("", first);
      assert first + "" == first;
    } else {
      SplitOneLine(first, NEWLINE + Join(others), "");
      SplitAtNewline(Join(others), first);
      SplitJoin(others);
    }
  }

  // ---------------------------------------------------------------- emitting

  function Row(e: Entry): string {
    (" " + e.key + ":0 ") + ("\"" + (Escape(Unescape(e.value)) + "\""))
  }

  function Rows(entries: seq<Entry>): (r: seq<string>)
    ensures |r| == |entries|
  {
    seq(|entries|, i requires 0 <= i < |entries| => Row(entries[i]))
  }

  function Emitted(header: string, entries: seq<Entry>): string {
    Join([header] + Rows(entries))
  }

  method EmitLocFile(header: string, entries: seq<Entry>) returns (text: string)
    ensures text == Emitted(header, entries)
  {
    var rows := [header];
    for i := 0 to |entries|
      invariant rows == [header] + Rows(entries)[..i]
    {
      var unescaped := Unescape(entries[i].value);
      var safe := Escape(unescaped);
      rows := rows + [(" " + entries[i].key + ":0 ") + ("\"" + (safe + "\""))];
    }
    assert Rows(entries)[..|entries|] == Rows(entries);
    text := Join(rows);
  }

  // ---------------------------------------------------------------- parsing

  function FullKey(key: string, version: string): string {
    if version != "" then key + ":" + version else key
  }

  function CountDollars(s: string): nat {
    if s == "" then 0 else CountDollars(s[1..]) + (if s[0] == '$' then 1 else 0)
  }

  predicate IsPureVariable(value: string) {
    value != "" && value[0] == '$' && value[|value| - 1] == '$' && CountDollars(value) == 2
  }

  /** Entries that only repeat their key, are empty, or are a pure variable are not for translation. */
  predicate Filtered(fullKey: string, value: string) {
    fullKey == value || value == "" || IsPureVariable(value)
  }

  function ParseLine(line: string): Option<Entry> {
    match MatchEntry(line)
    case None => None
    case Some(m) =>
      var value := Unescape(m.raw);
      var fullKey := FullKey(m.key, m.version);
      if Filtered(fullKey, value) then None else Some(Entry(fullKey, value))
  }

  function ParseLines(lines: seq<string>): seq<Entry> {
    if lines == [] then []
    else
      var front := ParseLines(lines[..|lines| - 1]);
      match ParseLine(lines[|lines| - 1])
      case None => front
      case Some(e) => front + [e]
  }

  lemma {:induction false} NoLines()
    ensures ParseLines([]) == []
  {
  }

  lemma {:induction false} ParseOneMore(lines: seq<string>, i: nat)
    requires i < |lines|
    ensures ParseLines(lines[..i + 1]) ==
            match ParseLine(lines[i])
            case None => ParseLines(lines[..i])
            case Some(e) => ParseLines(lines[..i]) + [e]
  {
    assert lines[..i + 1][..i] == lines[..i];
  }

  method ParseLocFile(text: string) returns (entries: seq<Entry>)
    ensures entries == ParseLines(SplitLines(text))
  {
    hide ParseLines, MatchEntry, Unescape, SplitLines, IsPureVariable;
    var lines := SplitLines(text);
    entries := [];
    NoLines();
    for i := 0 to |lines|
      invariant entries == ParseLines(lines[..i])
    {
      ParseOneMore(lines, i);
      var m := MatchEntry(lines[i]);
      if m.None? {
        continue;
      }
      var value := Unescape(m.value.raw);
      var fullKey := if m.value.version != "" then m.value.key + ":" + m.value.version else m.value.key;
      if fullKey == value || value == "" || IsPureVariable(value) {
        continue;
      }
      entries := entries + [Entry(fullKey, value)];
    }
    assert lines[..|lines|] == lines;
  }

  // ---------------------------------------------------------------- what is read from a line

  lemma {:induction false} DollarsAppend(a: string, b: string)
    ensures CountDollars(a + b) == CountDollars(a) + CountDollars(b)
  {
    if a == "" {
      assert a + b == b;
    } else {
      assert (a + b)[1..] == a[1..] + b;
      DollarsAppend(a[1..], b);
    }
  }

  lemma {:induction false} NoDollars(s: string)
    ensures CountDollars(s) == 0 <==> '$' !in s
  {
    if s != "" {
      NoDollars(s[1..]);
      assert forall c :: c in s <==> c == s[0] || c in s[1..];
    }
  }

  lemma {:induction false} OneDollar()
    ensures CountDollars("$") == 1
  {
    assert "$"[1..] == "";
  }

  /** A pure variable is a name between two dollar signs, without another one. */
  lemma {:induction false} PureVariableIff(value: string)
    ensures IsPureVariable(value) <==> exists name :: value == "$" + (name + "$") && '$' !in name
  {
    OneDollar();
    if IsPureVariable(value) {
      AtMostOneDollar(value);
      var name := value[1..|value| - 1];
      assert value == "$" + (name + "$");
      DollarsAppend("$", name + "$");
      DollarsAppend(name, "$");
      NoDollars(name);
    }
    if name :| value == "$" + (name + "$") && '$' !in name {
      DollarsAppend("$", name + "$");
      DollarsAppend(name, "$");
      NoDollars(name);
    }
  }

  lemma {:induction false} AtMostOneDollar(value: string)
    requires value != ""
    ensures |value| == 1 ==> CountDollars(value) <= 1
  {
    assert |value| == 1 ==> value[1..] == "";
  }

  /**
   * What the parser reads from a line with a head, a quoted value and a tail without quotes: nothing if
   * the value is empty, only repeats the key, or is a pure variable; else the unescaped value under the
   * key, with the version, if there is one.
   */
  lemma {:induction false} LineReads(pre: string, raw: string, tail: string)
    requires IsHead(pre) && '"' !in tail
    ensures var h, value := MatchHead(pre).value, Unescape(raw);
            var name := if h.version == "" then h.key else h.key + (":" + h.version);
            ParseLine(pre + ("\"" + (raw + ("\"" + tail)))) ==
            if value == name || value == "" || (exists v :: value == "$" + (v + "$") && '$' !in v) then None
            else Some(Entry(name, value))
  {
    hide MatchHead, MatchEntry, Unescape, IsPureVariable;
    EntryMatches(pre, raw, tail);
    PureVariableIff(Unescape(raw));
    var h := MatchHead(pre).value;
    assert h.key + ":" + h.version == h.key + (":" + h.version);
  }

  // ---------------------------------------------------------------- the round trip

  predicate GoodKey(key: string) {
    key != "" && forall i :: 0 <= i < |key| ==> IsKeyChar(key[i])
  }

  lemma {:induction false} RowHead(key: string)
    requires GoodKey(key)
    ensures MatchHead(" " + key + ":0 ") == Some(Head(key, "0", ""))
  {
    var s := " " + key + ":0 ";
    var s1 := key + ":0 ";
    assert s[1..] == s1;
    assert DropWhile(s, IsSpace) == s1 by {
      assert IsKeyChar(key[0]) && s1[0] == key[0];
    }
    AllTaken(key, IsKeyChar);
    WhileAppend(key, ":0 ", IsKeyChar);
    assert "" + ":0 " == ":0 ";
    assert DropWhile(":0 ", IsSpace) == ":0 ";
    TailOfHead();
  }

  lemma {:induction false} TailOfHead()
    ensures ":0 "[1..] == "0 " && DropWhile("0 ", IsSpace) == "0 "
    ensures TakeWhile("0 ", IsDigit) == "0" && DropWhile("0 ", IsDigit) == " " && DropWhile(" ", IsSpace) == ""
  {
    assert "0 "[1..] == " " && " "[1..] == "";
    assert TakeWhile(" ", IsDigit) == "";
  }

  lemma {:induction false} RowParses(e: Entry)
    requires GoodKey(e.key)
    ensures ParseLine(Row(e)) ==
            (if Filtered(e.key + ":0", Unescape(e.value)) then None else Some(Entry(e.key + ":0", Unescape(e.value))))
  {
    hide MatchHead, MatchEntry, Escape, Unescape, Filtered;
    var pre, raw := " " + e.key + ":0 ", Escape(Unescape(e.value));
    RowHead(e.key);
    EntryMatches(pre, raw, "");
    assert "\"" + "" == "\"";
    assert e.key + ":" + "0" == e.key + ":0";
    UnescapeEscape(Unescape(e.value));
  }

  lemma {:induction false} RowIsOneLine(e: Entry)
    requires GoodKey(e.key) && OneLine(e.value)
    ensures OneLine(Row(e)) && Row(e) != ""
  {
    hide MatchHead, Escape, Unescape;
    var pre, raw := " " + e.key + ":0 ", Escape(Unescape(e.value));
    UnescapeKeepsLines(e.value);
    EscapeKeepsLines(Unescape(e.value));
    assert OneLine(e.key) by {
      assert forall i :: 0 <= i < |e.key| ==> IsKeyChar(e.key[i]);
    }
    OneLineAppend(" " + e.key, ":0 ");
    OneLineAppend(" ", e.key);
    OneLineAppend(raw, "\"");
    OneLineAppend("\"", raw + "\"");
    OneLineAppend(pre, "\"" + (raw + "\""));
  }

  /** What comes back: each entry under `key:0` with its unescaped value, in order, minus the filtered ones. */
  function Restored(entries: seq<Entry>): seq<Entry> {
    if entries == [] then []
    else
      var e := entries[|entries| - 1];
      var front := Restored(entries[..|entries| - 1]);
      if Filtered(e.key + ":0", Unescape(e.value)) then front
      else front + [Entry(e.key + ":0", Unescape(e.value))]
  }

  lemma {:induction false} RowsParse(header: string, entries: seq<Entry>)
    requires MatchEntry(header).None?
    requires forall i :: 0 <= i < |entries| ==> GoodKey(entries[i].key) && OneLine(entries[i].value)
    ensures ParseLines([header] + Rows(entries)) == Restored(entries)
  {
    var lines := [header] + Rows(entries);
    if entries == [] {
      assert lines == [header] && lines[..0] == [];
    } else {
      var front := entries[..|entries| - 1];
      assert lines[..|lines| - 1] == [header] + Rows(front);
      RowsParse(header, front);
      RowParses(entries[|entries| - 1]);
    }
  }

  lemma {:induction false} NoQuoteNoEntry(line: string)
    requires '"' !in line
    ensures MatchEntry(line).None?
  {
    if MatchHead(line).Some? {
      var s1 := DropWhile(line, IsSpace);
      SuffixMembers(line, IsSpace);
      SuffixMembers(s1, IsKeyChar);
      SuffixMembers(DropWhile(s1, IsKeyChar), IsSpace);
      var s2 := DropWhile(DropWhile(s1, IsKeyChar), IsSpace);
      SuffixMembers(s2[1..], IsSpace);
      var s3 := DropWhile(s2[1..], IsSpace);
      SuffixMembers(s3, IsDigit);
      SuffixMembers(DropWhile(s3, IsDigit), IsSpace);
      assert forall c :: c in s2[1..] ==> c in s2;
      var rest := MatchHead(line).value.rest;
      assert rest != "" ==> rest[0] in rest;
    }
  }

  lemma {:induction false} SuffixMembers(s: string, p: char -> bool)
    ensures forall c :: c in DropWhile(s, p) ==> c in s
  {
    if s != "" && p(s[0]) {
      SuffixMembers(s[1..], p);
    }
  }

  /**
   * Parsing what was emitted gives the entries back, for all keys without colons and white space and
   * all values without line breaks, whatever quotes and backslashes they hold.
   */
  lemma {:induction false} ParseEmitted(header: string, entries: seq<Entry>)
    requires OneLine(header) && '"' !in header
    requires forall i :: 0 <= i < |entries| ==> GoodKey(entries[i].key) && OneLine(entries[i].value)
    ensures ParseLines(SplitLines(Emitted(header, entries))) == Restored(entries)
  {
    hide Row, MatchEntry, GoodKey, ParseLine, Restored, SplitFrom, Join, OneLine;
    NoQuoteNoEntry(header);
    RowsParse(header, entries);
    EmittedSplits(header, entries);
  }

  lemma {:induction false} EmittedSplits(header: string, entries: seq<Entry>)
    requires OneLine(header) && '"' !in header
    requires forall i :: 0 <= i < |entries| ==> GoodKey(entries[i].key) && OneLine(entries[i].value)
    ensures ParseLines(SplitLines(Emitted(header, entries))) == ParseLines([header] + Rows(entries))
  {
    hide Row, MatchEntry, GoodKey, OneLine;
    var rows := [header] + Rows(entries);
    forall i | 0 <= i < |rows| ensures OneLine(rows[i]) && (i > 0 ==> rows[i] != "") {
      if i > 0 {
        RowIsOneLine(entries[i - 1]);
      }
    }
    if entries == [] && header == "" {
      NoQuoteNoEntry("");
      assert rows == [""] && rows[..0] == [];
      assert ParseLines(rows) == [];
    } else {
      SplitJoin(rows);
    }
  }

  /** Values that are already escaped are not escaped twice: emitting is stable under parsing. */
  lemma {:induction false} EmitIsStable(e: Entry)
    ensures Unescape(Escape(Unescape(e.value))) == Unescape(e.value)
    ensures QuotesEscaped(e.value) ==> Row(e) == (" " + e.key + ":0 ") + ("\"" + (e.value + "\""))
  {
    UnescapeEscape(Unescape(e.value));
    EscapeUnescape(e.value);
  }
}
