/** The INI line format: stripping, searching, one line, one file. */
module IniFormat {
  import opened Options

  predicate IsSpace(c: char) {
    c == ' ' || c == '\t' || c == '\n' || c == '\r' || c == 11 as char || c == 12 as char
  }

  /** The string without trailing whitespace. */
  function Rstrip(s: string): string {
    if s != "" && IsSpace(s[|s| - 1]) then Rstrip(s[..|s| - 1]) else s
  }

  /** The string without leading whitespace. */
  function Lskip(s: string): string {
    if s != "" && IsSpace(s[0]) then Lskip(s[1..]) else s
  }

  /** A search stops at the character it looks for and at a ';' behind whitespace. */
  predicate Stops(s: string, c: Option<char>, i: nat)
    requires i < |s|
  {
    Some(s[i]) == c || (s[i] == ';' && i > 0 && IsSpace(s[i - 1]))
  }

  /** Where a search from position i on stops; the length when it does not. */
  function FindFrom(s: string, c: Option<char>, i: nat): (r: nat)
    requires i <= |s|
    ensures i <= r <= |s| && (r < |s| ==> Stops(s, c, r))
    ensures forall j :: i <= j < r ==> !Stops(s, c, j)
    decreases |s| - i
  {
    if i < |s| && !Stops(s, c, i) then FindFrom(s, c, i + 1) else i
  }

  function FindCharOrComment(s: string, c: Option<char>): (r: nat)
    ensures r <= |s|
  {
    FindFrom(s, c, 0)
  }

  const MAX_COPY := 49 // room for a name or a section without its terminator
  const MAX_LINE := 199

  /** A bounded copy. */
  function Copy(s: string): string { if |s| <= MAX_COPY then s else s[..MAX_COPY] }

  datatype Call = Call(section: string, name: string, value: string)

  /** What is kept from line to line, and the handler calls so far. The handler always accepts. */
  datatype Parser = Parser(section: string, prevName: string, error: nat, calls: seq<Call>)
  {
    function Fail(lineno: nat): Parser { if error == 0 then this.(error := lineno) else this }
    function Emit(name: string, value: string): Parser { this.(calls := calls + [Call(section, name, value)]) }
  }

  const BOM: string := [0xEF as char, 0xBB as char, 0xBF as char]

  /** The name and value of a line; None when there is no '=' or ':' before a comment. */
  function SplitPair(start: string): Option<(string, string)> {
    var eq := FindCharOrComment(start, Some('='));
    var end := if eq < |start| && start[eq] == '=' then eq else FindCharOrComment(start, Some(':'));
    if end < |start| && (start[end] == '=' || start[end] == ':') then
      var value := Lskip(start[end + 1..]);
      Some((Rstrip(start[..end]), Rstrip(value[..FindCharOrComment(value, None)])))
    else None
  }

  /** One line. Only a line with leading whitespace can continue a value. */
  function ParseLine(p: Parser, lineno: nat, line: string): Parser {
    var body := if lineno == 1 && BOM <= line then line[3..] else line;
    var start := Lskip(Rstrip(body));
    var indented := |Rstrip(body)| > |start| || |body| < |line|;
    if start == "" || start[0] == ';' || start[0] == '#' then p
    else if p.prevName != "" && indented then p.Emit(p.prevName, start)
    else if start[0] == '[' then
      var end := FindCharOrComment(start[1..], Some(']'));
      if end < |start| - 1 && start[1 + end] == ']'
      then p.(section := Copy(start[1..1 + end]), prevName := "")
      else p.Fail(lineno)
    else
      match SplitPair(start)
      case None => p.Fail(lineno)
      case Some((name, value)) => p.Emit(name, value).(prevName := Copy(name))
  }

  /** The length of what one read of a line takes: through the newline, or as much as fits. */
  function LineLength(s: string, i: nat): (n: nat)
    requires i <= |s| && i <= MAX_LINE
    ensures i <= n <= |s| && n <= MAX_LINE && (s != "" && i < MAX_LINE && i < |s| ==> n > i)
    decreases |s| - i
  {
    if i == |s| || i == MAX_LINE then i
    else if s[i] == '\n' then i + 1
    else LineLength(s, i + 1)
  }

  function ParseFrom(p: Parser, lineno: nat, s: string): Parser
    decreases |s|
  {
    if s == "" then p
    else
      var n := LineLength(s, 0);
      ParseFrom(ParseLine(p, lineno, s[..n]), lineno + 1, s[n..])
  }

  function ParseFile(s: string): Parser {
    ParseFrom(Parser("", "", 0, []), 1, s)
  }
}

/** Printing a document and parsing it. */
module IniRoundTrip {
  import opened Options
  import opened Seqs
  import opened IniFormat

  /** The lines of a value: the first follows the '=', the others are indented below it. */
  datatype Entry = Entry(name: string, first: string, more: seq<string>)
  datatype Section = Section(name: string, entries: seq<Entry>)

  function PrintMore(more: seq<string>): string {
    if more == [] then "" else " " + more[0] + "\n" + PrintMore(more[1..])
  }

  function PrintEntries(entries: seq<Entry>): string {
    if entries == [] then ""
    else entries[0].name + "=" + entries[0].first + "\n" + PrintMore(entries[0].more) + PrintEntries(entries[1..])
  }

  function PrintSections(sections: seq<Section>): string {
    if sections == [] then ""
    else "[" + sections[0].name + "]\n" + PrintEntries(sections[0].entries) + PrintSections(sections[1..])
  }

  // ---- what the calls should be ----

  function MoreCalls(section: string, name: string, more: seq<string>): seq<Call> {
    if more == [] then [] else [Call(section, name, more[0])] + MoreCalls(section, name, more[1..])
  }

  function EntryCalls(section: string, entries: seq<Entry>): seq<Call> {
    if entries == [] then []
    else
      var e := entries[0];
      [Call(section, e.name, e.first)] + MoreCalls(section, e.name, e.more) + EntryCalls(section, entries[1..])
  }

  function SectionCalls(sections: seq<Section>): seq<Call> {
    if sections == [] then [] else EntryCalls(sections[0].name, sections[0].entries) + SectionCalls(sections[1..])
  }

  // ---- printable documents ----

  /** No line end, and nothing that would make a search stop. */
  ghost predicate Clean(s: string, c: Option<char>) {
    (forall i :: 0 <= i < |s| ==> s[i] != '\n') && (forall i :: 0 <= i < |s| ==> !Stops(s, c, i))
  }

  ghost predicate Trimmed(s: string) {
    s != "" ==> !IsSpace(s[0]) && !IsSpace(s[|s| - 1])
  }

  ghost predicate MoreOkay(v: string) {
    && v != "" && Trimmed(v) && (forall i :: 0 <= i < |v| ==> v[i] != '\n')
    && v[0] != ';' && v[0] != '#' && |v| + 2 <= MAX_LINE
  }

  ghost predicate EntryOkay(e: Entry) {
    && e.name != "" && Trimmed(e.name) && Clean(e.name, Some('=')) && e.name[0] !in ";#["
    && Trimmed(e.first) && Clean(e.first, None)
    && |e.name| + |e.first| + 2 <= MAX_LINE && (e.more != [] ==> |e.name| <= MAX_COPY)
    && (forall i :: 0 <= i < |e.more| ==> MoreOkay(e.more[i]))
  }

  ghost predicate SectionOkay(s: Section) {
    && Clean(s.name, Some(']')) && |s.name| <= MAX_COPY
    && forall i :: 0 <= i < |s.entries| ==> EntryOkay(s.entries[i])
  }

  ghost predicate DocumentOkay(sections: seq<Section>) {
    forall i :: 0 <= i < |sections| ==> SectionOkay(sections[i])
  }

  // ---- lines ----

  lemma {:induction false} LineEndsAtNewline(s: string, i: nat, n: nat)
    requires i <= n < |s| && n < MAX_LINE && s[n] == '\n' && forall j :: i <= j < n ==> s[j] != '\n'
    ensures LineLength(s, i) == n + 1
    decreases n - i
  {
    if i < n {
      LineEndsAtNewline(s, i + 1, n);
    }
  }

  lemma OneLine(p: Parser, lineno: nat, line: string, rest: string)
    requires |line| < MAX_LINE && forall i :: 0 <= i < |line| ==> line[i] != '\n'
    ensures ParseFrom(p, lineno, line + "\n" + rest) == ParseFrom(ParseLine(p, lineno, line + "\n"), lineno + 1, rest)
  {
    hide ParseLine;
    var s := line + "\n" + rest;
    assert forall i :: 0 <= i < |line| ==> s[i] == line[i];
    assert s[|line|] == '\n';
    LineEndsAtNewline(s, 0, |line|);
    assert s[..|line| + 1] == line + "\n" && s[|line| + 1..] == rest;
  }

  lemma RstripNewline(s: string)
    requires s != "" && !IsSpace(s[|s| - 1])
    ensures Rstrip(s + "\n") == s
  {
    assert (s + "\n")[..|s|] == s;
  }

  lemma SearchIs(s: string, c: Option<char>, k: nat)
    requires k <= |s| && (forall j :: 0 <= j < k ==> !Stops(s, c, j)) && (k < |s| ==> Stops(s, c, k))
    ensures FindCharOrComment(s, c) == k
  {
    var r := FindFrom(s, c, 0);
    assert r < |s| ==> Stops(s, c, r);
  }

  // ---- the three kinds of line ----

  lemma SectionLine(p: Parser, lineno: nat, name: string)
    requires Clean(name, Some(']')) && |name| <= MAX_COPY
    ensures ParseLine(p, lineno, "[" + name + "]\n") == p.(section := name, prevName := "")
  {
    hide Rstrip, Lskip, FindCharOrComment, SplitPair;
    var s := "[" + name + "]";
    assert "[" + name + "]\n" == s + "\n";
    RstripNewline(s);
    assert Lskip(s) == s by { LskipNone(s); }
    var tail := name + "]";
    assert s[1..] == tail;
    forall j | 0 <= j < |name|
      ensures !Stops(tail, Some(']'), j)
    {
      assert !Stops(name, Some(']'), j);
    }
    SearchIs(tail, Some(']'), |name|);
    assert s[1..1 + |name|] == name;
    assert (s + "\n")[0] == '[';
  }

  lemma LskipNone(s: string)
    requires s != "" && !IsSpace(s[0])
    ensures Lskip(s) == s
  {
  }

  lemma RstripNone(s: string)
    requires Trimmed(s)
    ensures Rstrip(s) == s && Lskip(s) == s
  {
  }

  lemma PairSplits(name: string, value: string)
    requires name != "" && Trimmed(name) && Clean(name, Some('=')) && Trimmed(value) && Clean(value, None)
    ensures SplitPair(name + "=" + value) == Some((name, value))
  {
    hide Rstrip, Lskip, FindCharOrComment;
    var s := name + "=" + value;
    forall j | 0 <= j < |name|
      ensures !Stops(s, Some('='), j)
    {
      assert !Stops(name, Some('='), j);
    }
    SearchIs(s, Some('='), |name|);
    assert s[|name|] == '=' && s[|name| + 1..] == value && s[..|name|] == name;
    RstripNone(name);
    RstripNone(value);
    SearchIs(value, None, |value|);
    assert value[..|value|] == value;
  }

  lemma PairLine(p: Parser, lineno: nat, name: string, value: string)
    requires name != "" && Trimmed(name) && Clean(name, Some('=')) && name[0] !in ";#["
    requires Trimmed(value) && Clean(value, None) && (lineno > 1 || name[0] != BOM[0])
    ensures ParseLine(p, lineno, name + "=" + value + "\n") == p.Emit(name, value).(prevName := Copy(name))
  {
    hide Rstrip, Lskip, FindCharOrComment, SplitPair, Copy;
    var s := name + "=" + value;
    RstripNewline(s);
    LskipNone(s);
    PairSplits(name, value);
    assert s[0] == name[0] && (s + "\n")[0] == name[0];
    assert name[0] != ';' && name[0] != '#' && name[0] != '[';
  }

  lemma MoreLine(p: Parser, lineno: nat, v: string)
    requires MoreOkay(v) && p.prevName != ""
    ensures ParseLine(p, lineno, " " + v + "\n") == p.Emit(p.prevName, v)
  {
    hide Rstrip, Lskip, FindCharOrComment, SplitPair;
    var s := " " + v;
    assert s[|s| - 1] == v[|v| - 1];
    RstripNewline(s);
    assert Lskip(s) == v by { LskipOne(v); }
    assert (s + "\n")[0] == ' ';
  }

  lemma LskipOne(v: string)
    requires v != "" && !IsSpace(v[0])
    ensures Lskip(" " + v) == v
  {
    assert (" " + v)[1..] == v;
  }

  // ---- documents ----

  lemma FirstOfMore(section: string, name: string, more: seq<string>, rest: string, calls: seq<Call>)
    requires more != []
    ensures PrintMore(more) + rest == (" " + more[0]) + "\n" + (PrintMore(more[1..]) + rest)
    ensures calls + MoreCalls(section, name, more) ==
            calls + [Call(section, name, more[0])] + MoreCalls(section, name, more[1..])
  {
    var line, tail := " " + more[0], PrintMore(more[1..]);
    assert PrintMore(more) == line + "\n" + tail;
    Regroup(line + "\n", tail, rest);
    var first, others := [Call(section, name, more[0])], MoreCalls(section, name, more[1..]);
    assert MoreCalls(section, name, more) == first + others;
    Regroup(calls, first, others);
  }

  lemma {:induction false} MoreParse(p: Parser, lineno: nat, more: seq<string>, rest: string) returns (next: nat)
    requires p.prevName != "" && forall i :: 0 <= i < |more| ==> MoreOkay(more[i])
    ensures next >= lineno
    ensures ParseFrom(p, lineno, PrintMore(more) + rest) ==
            ParseFrom(p.(calls := p.calls + MoreCalls(p.section, p.prevName, more)), next, rest)
    decreases |more|
  {
    hide ParseLine, ParseFrom, MoreOkay, PrintMore, MoreCalls;
    next := lineno;
    if more == [] {
      NoMore(p.section, p.prevName);
      assert PrintMore(more) + rest == rest && p.calls + [] == p.calls;
    } else {
      var v, tail := more[0], PrintMore(more[1..]) + rest;
      FirstOfMore(p.section, p.prevName, more, rest, p.calls);
      assert MoreOkay(v);
      MoreFitsALine(v);
      OneLine(p, lineno, " " + v, tail);
      MoreLine(p, lineno, v);
      var q := p.Emit(p.prevName, v);
      next := MoreParse(q, lineno + 1, more[1..], rest);
    }
  }

  lemma {:induction false} EntriesParse(p: Parser, lineno: nat, entries: seq<Entry>, rest: string)
    returns (next: nat, prevName: string)
    requires lineno > 1 && forall i :: 0 <= i < |entries| ==> EntryOkay(entries[i])
    ensures next >= lineno
    ensures ParseFrom(p, lineno, PrintEntries(entries) + rest) ==
            ParseFrom(p.(prevName := prevName, calls := p.calls + EntryCalls(p.section, entries)), next, rest)
    decreases |entries|
  {
    hide ParseLine, ParseFrom, Clean, Trimmed, MoreOkay, PrintMore, MoreCalls;
    next, prevName := lineno, p.prevName;
    if entries == [] {
      assert PrintEntries(entries) + rest == rest && p.calls + [] == p.calls;
    } else {
      var e := entries[0];
      assert EntryOkay(e);
      var tail := PrintMore(e.more) + (PrintEntries(entries[1..]) + rest);
      var line := e.name + "=" + e.first;
      assert PrintEntries(entries) + rest == line + "\n" + tail;
      CleanHasNoNewline(e.name, Some('='));
      CleanHasNoNewline(e.first, None);
      OneLine(p, lineno, line, tail);
      PairLine(p, lineno, e.name, e.first);
      var q := p.Emit(e.name, e.first).(prevName := Copy(e.name));
      next := lineno + 1;
      var r := q.(calls := q.calls + MoreCalls(p.section, e.name, e.more));
      if e.more == [] {
        NoMore(p.section, e.name);
        assert tail == PrintEntries(entries[1..]) + rest && r.calls == q.calls;
      } else {
        assert q.prevName == e.name;
        next := MoreParse(q, lineno + 1, e.more, PrintEntries(entries[1..]) + rest);
      }
      next, prevName := EntriesParse(r, next, entries[1..], rest);
      var first, more := [Call(p.section, e.name, e.first)], MoreCalls(p.section, e.name, e.more);
      var others := EntryCalls(p.section, entries[1..]);
      Regroup(p.calls, first, more);
      Regroup(p.calls, first + more, others);
    }
  }

  lemma CleanHasNoNewline(s: string, c: Option<char>)
    requires Clean(s, c)
    ensures forall i :: 0 <= i < |s| ==> s[i] != '\n'
  {
  }

  lemma MoreFitsALine(v: string)
    requires MoreOkay(v)
    ensures |" " + v| < MAX_LINE && forall i :: 0 <= i < |" " + v| ==> (" " + v)[i] != '\n'
  {
    assert forall i :: 0 <= i < |v| ==> (" " + v)[i + 1] == v[i];
  }

  lemma NoMore(section: string, name: string)
    ensures PrintMore([]) == "" && MoreCalls(section, name, []) == []
  {
  }

  lemma NothingParses(p: Parser, lineno: nat)
    ensures ParseFrom(p, lineno, "") == p
  {
  }

  lemma {:induction false} SectionsParse(p: Parser, lineno: nat, sections: seq<Section>)
    requires lineno > 0 && DocumentOkay(sections)
    ensures var r := ParseFrom(p, lineno, PrintSections(sections));
            r.calls == p.calls + SectionCalls(sections) && r.error == p.error
    decreases |sections|
  {
    hide ParseLine, ParseFrom, Clean, PrintEntries, EntryOkay, EntryCalls;
    if sections == [] {
      NothingParses(p, lineno);
      assert p.calls + [] == p.calls;
    } else {
      var s := sections[0];
      assert SectionOkay(s);
      var tail := PrintEntries(s.entries) + PrintSections(sections[1..]);
      var line := "[" + s.name + "]";
      assert PrintSections(sections) == line + "\n" + tail;
      CleanHasNoNewline(s.name, Some(']'));
      OneLine(p, lineno, line, tail);
      assert line + "\n" == "[" + s.name + "]\n";
      SectionLine(p, lineno, s.name);
      var q := p.(section := s.name, prevName := "");
      var next, prevName := EntriesParse(q, lineno + 1, s.entries, PrintSections(sections[1..]));
      SectionsParse(q.(prevName := prevName, calls := q.calls + EntryCalls(q.section, s.entries)), next, sections[1..]);
      Regroup(p.calls, EntryCalls(s.name, s.entries), SectionCalls(sections[1..]));
    }
  }

  /** Parsing the print of any document calls the handler once for each line of each value, in order and
      under its section and name, and reports no error. */
  lemma DocumentReadsBack(sections: seq<Section>)
    requires DocumentOkay(sections)
    ensures ParseFile(PrintSections(sections)).calls == SectionCalls(sections)
    ensures ParseFile(PrintSections(sections)).error == 0
  {
    SectionsParse(Parser("", "", 0, []), 1, sections);
  }
}

/** The parser's loops, and the reader that keeps the values. */
module IniReader {
  import opened Options
  import opened IniFormat
  import opened IniRoundTrip

  method StripRight(s: string) returns (r: string)
    ensures r == Rstrip(s)
  {
    var p := |s|;
    assert s[..p] == s;
    while p > 0 && IsSpace(s[p - 1])
      invariant 0 <= p <= |s| && Rstrip(s[..p]) == Rstrip(s)
    {
      assert s[..p][..p - 1] == s[..p - 1];
      p := p - 1;
    }
    r := s[..p];
  }

  method SkipLeft(s: string) returns (r: string)
    ensures r == Lskip(s)
  {
    var p := 0;
    while p < |s| && IsSpace(s[p])
      invariant 0 <= p <= |s| && Lskip(s[p..]) == Lskip(s)
    {
      p := p + 1;
    }
    r := s[p..];
  }

  method FindStop(s: string, c: Option<char>) returns (end: nat)
    ensures end == FindCharOrComment(s, c)
  {
    var wasWhitespace := false;
    end := 0;
    while end < |s| && Some(s[end]) != c && !(wasWhitespace && s[end] == ';')
      invariant 0 <= end <= |s| && (wasWhitespace <==> end > 0 && IsSpace(s[end - 1]))
      invariant FindFrom(s, c, 0) == FindFrom(s, c, end)
    {
      wasWhitespace := IsSpace(s[end]);
      end := end + 1;
    }
  }

  /** What the parser keeps across the lines of a file. */
  class IniParser {
    var section: string
    var prevName: string
    var error: nat
    var calls: seq<Call>

    ghost function State(): Parser
      reads this
    {
      Parser(section, prevName, error, calls)
    }

    constructor ()
      ensures State() == Parser("", "", 0, [])
    {
      section, prevName, error, calls := "", "", 0, [];
    }

    method Handle(name: string, value: string)
      modifies this
      ensures State() == old(State()).Emit(name, value)
    {
      calls := calls + [Call(section, name, value)];
    }

    method Fail(lineno: nat)
      modifies this
      ensures State() == old(State()).Fail(lineno)
    {
      if error == 0 {
        error := lineno;
      }
    }

    method Line(lineno: nat, line: string)
      modifies this
      ensures State() == ParseLine(old(State()), lineno, line)
    {
      hide Rstrip, Lskip, FindCharOrComment, Copy;
      var body := line;
      if lineno == 1 && BOM <= line {
        body := line[3..];
      }
      var stripped := StripRight(body);
      var start := SkipLeft(stripped);
      var indented := |stripped| > |start| || |body| < |line|;
      if start == "" || start[0] == ';' || start[0] == '#' {
        return;
      } else if prevName != "" && indented {
        Handle(prevName, start);
      } else if start[0] == '[' {
        var end := FindStop(start[1..], Some(']'));
        if end < |start| - 1 && start[1 + end] == ']' {
          section := Copy(start[1..1 + end]);
          prevName := "";
        } else {
          Fail(lineno);
        }
      } else {
        PairOnLine(lineno, start);
      }
    }

    method PairOnLine(lineno: nat, start: string)
      modifies this
      ensures State() == match SplitPair(start)
                         case None => old(State()).Fail(lineno)
                         case Some((name, value)) => old(State()).Emit(name, value).(prevName := Copy(name))
    {
      hide Rstrip, Lskip, FindCharOrComment, Copy;
      var end := FindStop(start, Some('='));
      if end >= |start| || start[end] != '=' {
        end := FindStop(start, Some(':'));
      }
      if end < |start| && (start[end] == '=' || start[end] == ':') {
        var name := StripRight(start[..end]);
        var value := SkipLeft(start[end + 1..]);
        end := FindStop(value, None);
        value := StripRight(value[..end]);
        Handle(name, value);
        prevName := Copy(name);
      } else {
        Fail(lineno);
      }
    }

    method File(s: string)
      requires State() == Parser("", "", 0, [])
      modifies this
      ensures State() == ParseFile(s)
    {
      hide ParseLine;
      var lineno, rest := 0, s;
      while rest != ""
        invariant ParseFrom(State(), lineno + 1, rest) == ParseFile(s)
        decreases |rest|
      {
        var n := LineLength(rest, 0);
        lineno := lineno + 1;
        Line(lineno, rest[..n]);
        rest := rest[n..];
      }
      NothingParses(State(), lineno + 1);
    }
  }

  // ---- values ----

  function ToLower(c: char): char {
    if 'A' <= c <= 'Z' then (c as int + 32) as char else c
  }

  function Lower(s: string): (r: string)
    ensures |r| == |s|
  {
    if s == "" then "" else [ToLower(s[0])] + Lower(s[1..])
  }

  function MakeKey(section: string, name: string): string {
    Lower(section + "." + name)
  }

  // ---- which sections and names share a key ----

  /** One character, or the upper and lower case of one ASCII letter. */
  predicate SameLetter(a: char, b: char) {
    || a == b
    || (65 <= a as int <= 90 && b as int == a as int + 32)
    || (65 <= b as int <= 90 && a as int == b as int + 32)
  }

  predicate SameLetters(a: string, b: string) {
    |a| == |b| && forall i :: 0 <= i < |a| ==> SameLetter(a[i], b[i])
  }

  lemma LowerLetters(a: char, b: char)
    ensures ToLower(a) == ToLower(b) <==> SameLetter(a, b)
  {
  }

  lemma {:induction false} LowerIs(s: string, i: nat)
    requires i < |s|
    ensures Lower(s)[i] == ToLower(s[i])
  {
    if i > 0 {
      LowerIs(s[1..], i - 1);
    }
  }

  /** Two sections and names share a key exactly when, with a dot between them, they are the same up to
      the case of ASCII letters. */
  lemma SameKeyExactlyWhen(s: string, m: string, t: string, n: string)
    ensures MakeKey(s, m) == MakeKey(t, n) <==> SameLetters(s + "." + m, t + "." + n)
  {
    hide SameLetter, ToLower, Lower;
    var a, b := s + "." + m, t + "." + n;
    forall i | 0 <= i < |a| && i < |b|
      ensures Lower(a)[i] == Lower(b)[i] <==> SameLetter(a[i], b[i])
    {
      LowerIs(a, i);
      LowerIs(b, i);
      LowerLetters(a[i], b[i]);
    }
  }

  /** The values handled under a section and a name, in order. */
  function ValuesUnder(calls: seq<Call>, section: string, name: string): seq<string> {
    if calls == [] then []
    else
      var last := calls[|calls| - 1];
      var before := ValuesUnder(calls[..|calls| - 1], section, name);
      if SameLetters(last.section + "." + last.name, section + "." + name) then before + [last.value] else before
  }

  lemma {:induction false} ValuesUnderIs(calls: seq<Call>, section: string, name: string)
    ensures ValuesUnder(calls, section, name) == ValuesOf(calls, MakeKey(section, name))
  {
    hide MakeKey, SameLetters;
    if calls != [] {
      var last := calls[|calls| - 1];
      ValuesUnderIs(calls[..|calls| - 1], section, name);
      SameKeyExactlyWhen(last.section, last.name, section, name);
    }
  }

  /** One handler call: the value goes behind a newline when something is there already. */
  function Stored(values: map<string, string>, c: Call): map<string, string> {
    var key := MakeKey(c.section, c.name);
    var before := if key in values then values[key] else "";
    values[key := (if before != "" then before + "\n" else before) + c.value]
  }

  function StoredAll(calls: seq<Call>): map<string, string> {
    if calls == [] then map[] else Stored(StoredAll(calls[..|calls| - 1]), calls[|calls| - 1])
  }

  /** The values of a key, in order. */
  function ValuesOf(calls: seq<Call>, key: string): seq<string> {
    if calls == [] then []
    else
      var last := calls[|calls| - 1];
      ValuesOf(calls[..|calls| - 1], key) + if MakeKey(last.section, last.name) == key then [last.value] else []
  }

  /** The strings with newlines between them. */
  function Joined(vs: seq<string>): string {
    if vs == [] then ""
    else if |vs| == 1 then vs[0]
    else Joined(vs[..|vs| - 1]) + "\n" + vs[|vs| - 1]
  }

  function DropEmpty(vs: seq<string>): seq<string> {
    if vs != [] && vs[0] == "" then DropEmpty(vs[1..]) else vs
  }

  lemma {:induction false} DropEmptyAppend(vs: seq<string>, v: string)
    ensures DropEmpty(vs + [v]) == if DropEmpty(vs) != [] then DropEmpty(vs) + [v] else if v == "" then [] else [v]
  {
    if vs == [] {
      assert vs + [v] == [v] && [v][1..] == [];
    } else {
      assert (vs + [v])[0] == vs[0] && (vs + [v])[1..] == vs[1..] + [v];
      DropEmptyAppend(vs[1..], v);
    }
  }

  lemma {:induction false} JoinedIsEmptyExactlyWhen(vs: seq<string>)
    ensures Joined(DropEmpty(vs)) == "" <==> DropEmpty(vs) == []
    decreases |vs|
  {
    if vs != [] {
      if vs[0] == "" {
        JoinedIsEmptyExactlyWhen(vs[1..]);
      }
    }
  }

  /** Each key holds its values joined by newlines, empty values at the front left out; keys that no call
      has are not there. */
  lemma {:induction false} StoredJoinsValues(calls: seq<Call>, key: string)
    ensures key in StoredAll(calls) <==> ValuesOf(calls, key) != []
    ensures key in StoredAll(calls) ==> StoredAll(calls)[key] == Joined(DropEmpty(ValuesOf(calls, key)))
    decreases |calls|
  {
    hide MakeKey;
    if calls != [] {
      var init, last := calls[..|calls| - 1], calls[|calls| - 1];
      StoredJoinsValues(init, key);
      if MakeKey(last.section, last.name) == key {
        var vs := ValuesOf(init, key);
        DropEmptyAppend(vs, last.value);
        JoinedIsEmptyExactlyWhen(vs);
        var d := DropEmpty(vs);
        assert d != [] ==> (d + [last.value])[..|d|] == d;
        assert vs == [] ==> DropEmpty(vs) == [];
      } else {
        assert ValuesOf(calls, key) == ValuesOf(init, key);
      }
    }
  }

  class INIReader {
    var values: map<string, string>

    constructor ()
      ensures values == map[]
    {
      values := map[];
    }

    method ValueHandler(c: Call)
      modifies this
      ensures values == Stored(old(values), c)
    {
      var key := MakeKey(c.section, c.name);
      if key !in values {
        values := values[key := ""];
      }
      if |values[key]| > 0 {
        values := values[key := values[key] + "\n"];
      }
      values := values[key := values[key] + c.value];
    }

    method HandleAll(calls: seq<Call>)
      requires values == map[]
      modifies this
      ensures values == StoredAll(calls)
    {
      var i := 0;
      while i < |calls|
        invariant 0 <= i <= |calls| && values == StoredAll(calls[..i])
      {
        ValueHandler(calls[i]);
        assert calls[..i + 1][..i] == calls[..i];
        i := i + 1;
      }
      assert calls[..i] == calls;
    }

    /** All values handled under a section and name, up to case, joined by newlines, empty ones at the
        front left out; the default when there are none. */
    method Get(section: string, name: string, default: string, ghost calls: seq<Call>) returns (r: string)
      requires values == StoredAll(calls)
      ensures var vs := ValuesUnder(calls, section, name);
              r == if vs == [] then default else Joined(DropEmpty(vs))
    {
      hide MakeKey, StoredAll, ValuesOf, ValuesUnder;
      ValuesUnderIs(calls, section, name);
      StoredJoinsValues(calls, MakeKey(section, name));
      var key := MakeKey(section, name);
      r := if key in values then values[key] else default;
    }
  }

  /** Reading the print of a document and asking for a section and name, up to case, gives all values
      printed under them, joined by newlines, or the default when there are none. */
  method ReadPrinted(sections: seq<Section>, section: string, name: string, default: string) returns (r: string)
    requires DocumentOkay(sections)
    ensures var vs := ValuesUnder(SectionCalls(sections), section, name);
            r == if vs == [] then default else Joined(DropEmpty(vs))
  {
    hide MakeKey, ParseFile, ValuesUnder;
    DocumentReadsBack(sections);
    var parser := new IniParser();
    parser.File(PrintSections(sections));
    var reader := new INIReader();
    reader.HandleAll(parser.calls);
    r := reader.Get(section, name, default, parser.calls);
  }
}
