/** Lines of every kind, and what a file of them leaves. */
module IniLines {
  import opened Options
  import opened IniFormat
  import opened IniRoundTrip

  /** What a line says. A pair may have blanks around its sign and a remark behind its value. */
  datatype Item =
    | Heading(name: string, after: string)
    | Pair(name: string, before: string, sign: char, behind: string, value: string, gap: string, note: string)
    | More(value: string)
    | Remark(text: string)
    | Blank
    | Broken(text: string)

  datatype Line = Line(indent: string, item: Item, tail: string)

  function Core(item: Item): string {
    match item
    case Heading(name, after) => "[" + name + "]" + after
    case Pair(name, before, sign, behind, value, gap, note) =>
      name + before + [sign] + behind + value + if gap == "" then "" else gap + ";" + note
    case More(value) => value
    case Remark(text) => text
    case Blank => ""
    case Broken(text) => text
  }

  function Text(line: Line): string { line.indent + Core(line.item) + line.tail + "\n" }

  function PrintLines(lines: seq<Line>): string {
    if lines == [] then "" else Text(lines[0]) + PrintLines(lines[1..])
  }

  // ---- well-formed lines ----

  /** The six space characters of the C locale. */
  predicate Space(c: char) { c as int == 32 || 9 <= c as int <= 13 }

  predicate White(s: string) { forall i :: 0 <= i < |s| ==> Space(s[i]) && s[i] != '\n' }

  predicate Solid(s: string) { s != "" && !Space(s[0]) && !Space(s[|s| - 1]) && '\n' !in s }

  /** No ';' behind a space. */
  predicate NoRemark(s: string) { forall i :: 0 < i < |s| && s[i] == ';' ==> !Space(s[i - 1]) }

  predicate PairParts(item: Item)
    requires item.Pair?
  {
    && Solid(item.name) && item.name[0] !in ";#[" && NoRemark(item.name)
    && White(item.before) && White(item.behind) && White(item.gap)
    && (item.value == "" || (Solid(item.value) && NoRemark(item.value)))
    && '=' !in item.name
    && (item.sign == '=' || (item.sign == ':' && ':' !in item.name && '=' !in item.value))
  }

  /** A remark stands behind a value. */
  predicate PairOkay(item: Item)
    requires item.Pair?
  {
    PairParts(item) && (item.value == "" ==> item.gap == "")
  }

  predicate ItemOkay(item: Item) {
    && (item.Blank? || Solid(Core(item)))
    && match item
       case Heading(name, after) => ']' !in name && NoRemark(name)
       case Pair(_, _, _, _, _, _, _) => PairOkay(item)
       case More(value) => value != "" && value[0] !in ";#"
       case Remark(text) => text != "" && text[0] in ";#"
       case Blank => true
       case Broken(text) =>
         text != "" && text[0] !in ";#" && if text[0] == '[' then ']' !in text else '=' !in text && ':' !in text
  }

  /** What a line does: a name or section is kept up to 49 characters, and only the number of the first
      broken line. */
  function Effect(p: Parser, lineno: nat, item: Item): Parser {
    match item
    case Heading(name, _) => p.(section := if |name| <= 49 then name else name[..49], prevName := "")
    case Pair(name, _, _, _, value, _, _) =>
      p.(calls := p.calls + [Call(p.section, name, value)], prevName := if |name| <= 49 then name else name[..49])
    case More(value) => p.(calls := p.calls + [Call(p.section, p.prevName, value)])
    case Remark(_) => p
    case Blank => p
    case Broken(_) => if p.error == 0 then p.(error := lineno) else p
  }

  /** An indented line continues a value when there is one to continue. */
  predicate LineOkay(p: Parser, line: Line) {
    && ItemOkay(line.item) && White(line.indent) && White(line.tail) && |Text(line)| <= 199
    && (line.item.More? ==> line.indent != "" && p.prevName != "")
    && (line.item.Heading? || line.item.Pair? || line.item.Broken? ==> line.indent == "" || p.prevName == "")
  }

  function Run(p: Parser, lineno: nat, lines: seq<Line>): Parser
    decreases |lines|
  {
    if lines == [] then p else Run(Effect(p, lineno, lines[0].item), lineno + 1, lines[1..])
  }

  predicate LinesOkay(p: Parser, lineno: nat, lines: seq<Line>)
    decreases |lines|
  {
    lines == [] || (LineOkay(p, lines[0]) && LinesOkay(Effect(p, lineno, lines[0].item), lineno + 1, lines[1..]))
  }

  // ---- stripping ----

  lemma SpaceIs(c: char)
    ensures IsSpace(c) <==> Space(c)
  {
  }

  lemma {:induction false} RstripWhite(s: string, w: string)
    requires (s == "" || !IsSpace(s[|s| - 1])) && forall i :: 0 <= i < |w| ==> IsSpace(w[i])
    ensures Rstrip(s + w) == s
  {
    if w == "" {
      assert s + w == s;
    } else {
      assert (s + w)[..|s + w| - 1] == s + w[..|w| - 1];
      RstripWhite(s, w[..|w| - 1]);
    }
  }

  lemma {:induction false} LskipWhite(w: string, s: string)
    requires (s == "" || !IsSpace(s[0])) && forall i :: 0 <= i < |w| ==> IsSpace(w[i])
    ensures Lskip(w + s) == s
  {
    if w == "" {
      assert w + s == s;
    } else {
      assert (w + s)[1..] == w[1..] + s;
      LskipWhite(w[1..], s);
    }
  }

  lemma WhiteIsSpace(w: string)
    requires White(w)
    ensures forall i :: 0 <= i < |w| ==> IsSpace(w[i])
    ensures forall i :: 0 <= i < |w + "\n"| ==> IsSpace((w + "\n")[i])
  {
  }

  /** Stripping leaves the core of a line. */
  lemma Stripped(indent: string, core: string, tail: string)
    requires White(indent) && White(tail) && Solid(core)
    ensures var line := indent + core + tail + "\n"; Rstrip(line) == indent + core && Lskip(Rstrip(line)) == core
  {
    hide Rstrip, Lskip;
    WhiteIsSpace(indent);
    WhiteIsSpace(tail);
    assert indent + core + tail + "\n" == (indent + core) + (tail + "\n");
    assert (indent + core)[|indent + core| - 1] == core[|core| - 1];
    RstripWhite(indent + core, tail + "\n");
    LskipWhite(indent, core);
  }

  lemma StrippedBlank(indent: string, tail: string)
    requires White(indent) && White(tail)
    ensures Lskip(Rstrip(indent + "" + tail + "\n")) == ""
  {
    hide Rstrip, Lskip;
    WhiteIsSpace(indent);
    WhiteIsSpace(tail);
    var w := indent + (tail + "\n");
    assert indent + "" + tail + "\n" == "" + w;
    RstripWhite("", w);
    LskipWhite("", "");
    assert "" + "" == "";
  }

  // ---- searching ----

  lemma NoStopIn(s: string, c: Option<char>, part: string, at: nat, j: nat)
    requires NoRemark(part) && (part == "" || part[0] != ';' || at == 0) && j < |part|
    requires at + |part| <= |s| && s[at..at + |part|] == part && Some(part[j]) != c
    ensures !Stops(s, c, at + j)
  {
    assert s[at + j] == part[j];
    if j > 0 {
      assert s[at + j - 1] == part[j - 1];
    }
  }

  /** A search for a character that neither the part before it nor blanks in between have. */
  lemma FoundBehind(part: string, blanks: string, c: char, rest: string)
    requires NoRemark(part) && c !in part && White(blanks) && !Space(c)
    ensures FindCharOrComment(part + blanks + [c] + rest, Some(c)) == |part| + |blanks|
  {
    var s := part + blanks + [c] + rest;
    forall j | 0 <= j < |part| + |blanks|
      ensures !Stops(s, Some(c), j)
    {
      if j < |part| {
        NoStopIn(s, Some(c), part, 0, j);
      } else {
        assert s[j] == blanks[j - |part|];
      }
    }
    SearchIs(s, Some(c), |part| + |blanks|);
  }

  /** With a remark behind it the value ends there, and without one at the end of the line. */
  lemma ValueEnds(value: string, gap: string, note: string)
    requires Solid(value) && NoRemark(value) && White(gap)
    ensures var rest := if gap == "" then "" else gap + ";" + note;
            FindCharOrComment(value + rest, None) == |value| + |gap|
  {
    var rest := if gap == "" then "" else gap + ";" + note;
    var s := value + rest;
    forall j | 0 <= j < |value| + |gap|
      ensures !Stops(s, None, j)
    {
      if j < |value| {
        NoStopIn(s, None, value, 0, j);
      } else {
        assert s[j] == gap[j - |value|];
      }
    }
    if gap != "" {
      assert s[|value| + |gap|] == ';' && s[|value| + |gap| - 1] == gap[|gap| - 1];
    }
    SearchIs(s, None, |value| + |gap|);
  }

  /** A search for '=' does not find one in the remark. */
  lemma NotFoundInRemark(head: string, gap: string, note: string)
    requires '=' !in head && White(gap)
    ensures var s := head + if gap == "" then "" else gap + ";" + note;
            var r := FindCharOrComment(s, Some('='));
            r < |s| ==> s[r] != '='
  {
    var s := head + if gap == "" then "" else gap + ";" + note;
    var r := FindCharOrComment(s, Some('='));
    if gap == "" {
      assert s == head;
    } else {
      var k := |head| + |gap|;
      assert s[k] == ';' && s[k - 1] == gap[|gap| - 1];
      assert Stops(s, Some('='), k);
      assert r <= k;
      if r < |head| {
        assert s[r] == head[r];
      }
    }
  }

  // ---- lines ----

  lemma SplitIs(s: string, end: nat)
    requires end < |s| && (s[end] == '=' || s[end] == ':')
    requires var eq := FindCharOrComment(s, Some('='));
             end == if eq < |s| && s[eq] == '=' then eq else FindCharOrComment(s, Some(':'))
    ensures var value := Lskip(s[end + 1..]);
            SplitPair(s) == Some((Rstrip(s[..end]), Rstrip(value[..FindCharOrComment(value, None)])))
  {
    hide Rstrip, Lskip, FindCharOrComment;
  }

  /** Where the name of a pair ends. */
  lemma SignFound(item: Item)
    requires item.Pair? && PairParts(item)
    ensures var s, end := Core(item), |item.name| + |item.before|;
            && end < |s| && s[end] == item.sign
            && end == (var eq := FindCharOrComment(s, Some('='));
                       if eq < |s| && s[eq] == '=' then eq else FindCharOrComment(s, Some(':')))
  {
    hide FindCharOrComment, NoRemark, Solid;
    var remark := if item.gap == "" then "" else item.gap + ";" + item.note;
    var s, rest := Core(item), item.behind + item.value + remark;
    assert s == item.name + item.before + [item.sign] + rest;
    if item.sign == '=' {
      FoundBehind(item.name, item.before, '=', rest);
    } else {
      FoundBehind(item.name, item.before, ':', rest);
      var head := item.name + item.before + [item.sign] + item.behind + item.value;
      assert s == head + remark;
      assert '=' !in head;
      NotFoundInRemark(head, item.gap, item.note);
    }
  }

  lemma NameOf(item: Item)
    requires item.Pair? && PairParts(item)
    ensures Rstrip(Core(item)[..|item.name| + |item.before|]) == item.name
  {
    hide Rstrip;
    assert Core(item)[..|item.name| + |item.before|] == item.name + item.before;
    WhiteIsSpace(item.before);
    RstripWhite(item.name, item.before);
  }

  lemma ValueOf(item: Item)
    requires item.Pair? && PairOkay(item) && Solid(Core(item))
    ensures var value := Lskip(Core(item)[|item.name| + |item.before| + 1..]);
            Rstrip(value[..FindCharOrComment(value, None)]) == item.value
  {
    hide Rstrip, Lskip, FindCharOrComment, NoRemark, Solid, PairOkay;
    TailIs(item);
    PairValue(item);
    if item.value == "" {
      assert item.behind + ("" + "") == item.behind;
      assert Core(item) == item.name + item.before + [item.sign] + item.behind;
      NothingBehind(item.name + item.before + [item.sign], item.behind);
      EmptyValue();
    } else {
      WhiteIsSpace(item.behind);
      var rest := if item.gap == "" then "" else item.gap + ";" + item.note;
      SolidStart(item.value, rest);
      LskipWhite(item.behind, item.value + rest);
      ValueStripped(item.value, item.gap, item.note);
    }
  }

  lemma TailIs(item: Item)
    requires item.Pair?
    ensures |item.name| + |item.before| + 1 <= |Core(item)|
    ensures Core(item)[|item.name| + |item.before| + 1..] ==
            item.behind + (item.value + if item.gap == "" then "" else item.gap + ";" + item.note)
  {
  }

  lemma PairValue(item: Item)
    requires item.Pair? && PairOkay(item)
    ensures White(item.behind) && White(item.gap)
    ensures if item.value == "" then item.gap == "" else Solid(item.value) && NoRemark(item.value)
  {
  }

  lemma NothingBehind(s: string, blanks: string)
    requires Solid(s + blanks) && White(blanks)
    ensures blanks == ""
  {
  }

  lemma SolidStart(value: string, rest: string)
    requires Solid(value)
    ensures value + rest != "" && !IsSpace((value + rest)[0])
  {
  }

  lemma ValueStripped(value: string, gap: string, note: string)
    requires Solid(value) && NoRemark(value) && White(gap)
    ensures var s := value + if gap == "" then "" else gap + ";" + note;
            Rstrip(s[..FindCharOrComment(s, None)]) == value
  {
    hide Rstrip, FindCharOrComment, NoRemark;
    var s := value + if gap == "" then "" else gap + ";" + note;
    ValueEnds(value, gap, note);
    assert s[..|value| + |gap|] == value + gap;
    WhiteIsSpace(gap);
    RstripWhite(value, gap);
  }

  lemma EmptyValue()
    ensures Lskip("") == "" && FindCharOrComment("", None) == 0 && Rstrip("") == ""
  {
  }

  lemma PairCore(item: Item)
    requires item.Pair? && PairOkay(item) && Solid(Core(item))
    ensures SplitPair(Core(item)) == Some((item.name, item.value))
  {
    hide Rstrip, Lskip, FindCharOrComment, SplitPair, PairParts, Solid, Core;
    SignFound(item);
    SignIs(item);
    SplitIs(Core(item), |item.name| + |item.before|);
    NameOf(item);
    ValueOf(item);
  }

  lemma SignIs(item: Item)
    requires item.Pair? && PairParts(item)
    ensures item.sign == '=' || item.sign == ':'
  {
  }

  lemma HeadingCore(name: string, after: string)
    requires ']' !in name && NoRemark(name)
    ensures FindCharOrComment(("[" + name + "]" + after)[1..], Some(']')) == |name|
  {
    hide FindCharOrComment;
    assert ("[" + name + "]" + after)[1..] == name + "" + [']'] + after;
    FoundBehind(name, "", ']', after);
  }

  lemma BrokenCore(text: string)
    requires ItemOkay(Broken(text))
    ensures text[0] != '[' ==> SplitPair(text) == None
    ensures text[0] == '[' ==>
              var end := FindCharOrComment(text[1..], Some(']')); !(end < |text| - 1 && text[1 + end] == ']')
  {
    hide Rstrip, Lskip, FindCharOrComment;
  }

  /** One line, by what is left of it when it is stripped. */
  lemma LineIs(p: Parser, lineno: nat, line: Line)
    requires White(line.indent) && White(line.tail) && (line.item.Blank? || Solid(Core(line.item)))
    requires lineno > 1 || !(BOM <= Text(line))
    ensures var start, indented := Core(line.item), line.indent != "";
            ParseLine(p, lineno, Text(line)) ==
            if start == "" || start[0] == ';' || start[0] == '#' then p
            else if p.prevName != "" && indented then p.Emit(p.prevName, start)
            else if start[0] == '[' then
              var end := FindCharOrComment(start[1..], Some(']'));
              if end < |start| - 1 && start[1 + end] == ']'
              then p.(section := Copy(start[1..1 + end]), prevName := "")
              else p.Fail(lineno)
            else
              match SplitPair(start)
              case None => p.Fail(lineno)
              case Some((name, value)) => p.Emit(name, value).(prevName := Copy(name))
  {
    hide Rstrip, Lskip, FindCharOrComment, SplitPair, Copy, Solid, White;
    if line.item.Blank? {
      StrippedBlank(line.indent, line.tail);
    } else {
      Stripped(line.indent, Core(line.item), line.tail);
    }
  }

  /** A line does what its item says. */
  lemma LineDoes(p: Parser, lineno: nat, line: Line)
    requires LineOkay(p, line) && (lineno > 1 || !(BOM <= Text(line)))
    ensures ParseLine(p, lineno, Text(line)) == Effect(p, lineno, line.item)
  {
    hide ParseLine, Rstrip, Lskip, FindCharOrComment, SplitPair, Text, White, PairParts, NoRemark;
    LineIs(p, lineno, line);
    match line.item
    case Heading(name, after) =>
      HeadingCore(name, after);
      assert Core(line.item)[1..1 + |name|] == name;
    case Pair(name, _, _, _, _, _, _) =>
      PairCore(line.item);
      FirstOfPair(line.item);
    case Broken(text) => BrokenCore(text);
    case _ =>
  }

  lemma FirstOfPair(item: Item)
    requires item.Pair? && PairParts(item)
    ensures Core(item) != "" && Core(item)[0] !in ";#["
  {
    assert Core(item)[0] == item.name[0];
  }

  // ---- files ----

  lemma FirstLine(p: Parser, lineno: nat, line: Line, rest: string)
    requires LineOkay(p, line)
    ensures ParseFrom(p, lineno, Text(line) + rest) == ParseFrom(ParseLine(p, lineno, Text(line)), lineno + 1, rest)
  {
    hide ParseLine, ParseFrom;
    var s := line.indent + Core(line.item) + line.tail;
    assert Text(line) + rest == s + "\n" + rest;
    assert forall i :: 0 <= i < |s| ==> s[i] != '\n';
    OneLine(p, lineno, s, rest);
  }

  /** The lines of a file one after another do what their items say. */
  lemma {:induction false} LinesDo(p: Parser, lineno: nat, lines: seq<Line>)
    requires lineno > 0 && LinesOkay(p, lineno, lines) && (lineno > 1 || lines == [] || !(BOM <= Text(lines[0])))
    ensures ParseFrom(p, lineno, PrintLines(lines)) == Run(p, lineno, lines)
    decreases |lines|
  {
    hide ParseLine, ParseFrom, LineOkay, Effect, Text;
    if lines == [] {
      NothingParses(p, lineno);
    } else {
      FirstLine(p, lineno, lines[0], PrintLines(lines[1..]));
      LineDoes(p, lineno, lines[0]);
      LinesDo(Effect(p, lineno, lines[0].item), lineno + 1, lines[1..]);
    }
  }

  /** A file of well-formed lines of any kind calls the handler as its items say, in order, and reports the
      first broken line; a byte order mark before the first line changes nothing. */
  lemma LinesReadBack(lines: seq<Line>)
    requires LinesOkay(Parser("", "", 0, []), 1, lines) && (lines != [] ==> |Text(lines[0])| <= 196)
    requires lines != [] ==> !([0xEF as char, 0xBB as char, 0xBF as char] <= Text(lines[0]))
    ensures ParseFile(PrintLines(lines)) == Run(Parser("", "", 0, []), 1, lines)
    ensures ParseFile([0xEF as char, 0xBB as char, 0xBF as char] + PrintLines(lines)) ==
            Run(Parser("", "", 0, []), 1, lines)
  {
    hide ParseLine, LineOkay, Effect, Text;
    var p := Parser("", "", 0, []);
    LinesDo(p, 1, lines);
    if lines == [] {
      MarkAlone(p);
      assert BOM + "" == BOM;
    } else {
      FirstLine(p, 1, lines[0], PrintLines(lines[1..]));
      LineDoes(p, 1, lines[0]);
      MarkedLine(p, lines[0], PrintLines(lines[1..]));
      assert BOM + PrintLines(lines) == BOM + Text(lines[0]) + PrintLines(lines[1..]);
    }
  }

  lemma MarkAlone(p: Parser)
    requires p.prevName == ""
    ensures ParseFrom(p, 1, BOM) == p
  {
    assert LineLength(BOM, 3) == 3;
    assert LineLength(BOM, 2) == 3;
    assert LineLength(BOM, 1) == 3;
    assert LineLength(BOM, 0) == 3;
    assert BOM[..3] == BOM && BOM[3..] == "";
    EmptyValue();
    assert ParseLine(p, 1, BOM) == p;
    NothingParses(p, 2);
  }

  lemma MarkedLine(p: Parser, line: Line, rest: string)
    requires LineOkay(p, line) && |Text(line)| <= 196 && p.prevName == "" && !(BOM <= Text(line))
    ensures ParseFrom(p, 1, BOM + Text(line) + rest) == ParseFrom(ParseLine(p, 1, Text(line)), 2, rest)
  {
    hide ParseLine, ParseFrom;
    var s := BOM + (line.indent + Core(line.item) + line.tail);
    assert BOM + Text(line) + rest == s + "\n" + rest;
    assert forall i :: 0 <= i < |s| ==> s[i] != '\n';
    OneLine(p, 1, s, rest);
    assert s + "\n" == BOM + Text(line);
    MarkIsSkipped(p, Text(line));
  }

  lemma MarkIsSkipped(p: Parser, text: string)
    requires p.prevName == "" && !(BOM <= text)
    ensures ParseLine(p, 1, BOM + text) == ParseLine(p, 1, text)
  {
    hide Rstrip, Lskip, FindCharOrComment, SplitPair, Copy;
    assert (BOM + text)[3..] == text;
  }

  /** The error of a file is the number of its first broken line. */
  lemma {:induction false} ErrorIsFirstBroken(p: Parser, lineno: nat, lines: seq<Line>)
    requires lineno > 0
    ensures var e := Run(p, lineno, lines).error;
            if p.error != 0 then e == p.error
            else if forall i :: 0 <= i < |lines| ==> !lines[i].item.Broken? then e == 0
            else lineno <= e < lineno + |lines| && lines[e - lineno].item.Broken?
                 && forall i :: 0 <= i < e - lineno ==> !lines[i].item.Broken?
    decreases |lines|
  {
    if lines != [] {
      var q := Effect(p, lineno, lines[0].item);
      ErrorIsFirstBroken(q, lineno + 1, lines[1..]);
      var e := Run(p, lineno, lines).error;
      assert forall i :: 0 <= i < |lines[1..]| ==> lines[1..][i] == lines[i + 1];
      if p.error == 0 && !lines[0].item.Broken? && e != 0 {
        FirstAndRest(lines, e - lineno);
      }
    }
  }

  lemma FirstAndRest(lines: seq<Line>, k: int)
    requires lines != [] && !lines[0].item.Broken? && 0 <= k - 1 < |lines| - 1
    requires forall i :: 0 <= i < k - 1 ==> !lines[1..][i].item.Broken?
    ensures forall i :: 0 <= i < k ==> !lines[i].item.Broken?
  {
    forall i | 0 <= i < k
      ensures !lines[i].item.Broken?
    {
      if i > 0 {
        assert lines[i] == lines[1..][i - 1];
      }
    }
  }

  /** A line of more than 199 characters is taken in pieces of 199. */
  lemma LongLineIsCut(p: Parser, lineno: nat, s: string)
    requires |s| >= 199 && forall i :: 0 <= i < 199 ==> s[i] != '\n'
    ensures ParseFrom(p, lineno, s) == ParseFrom(ParseLine(p, lineno, s[..199]), lineno + 1, s[199..])
  {
    hide ParseLine;
    NoNewline(s, 0);
  }

  lemma {:induction false} NoNewline(s: string, i: nat)
    requires i <= 199 <= |s| && forall j :: i <= j < 199 ==> s[j] != '\n'
    ensures LineLength(s, i) == 199
    decreases 199 - i
  {
    if i < 199 {
      NoNewline(s, i + 1);
    }
  }

  /** A pair gives its name and its value exactly when no remark stands behind an empty value, which
      otherwise begins with the remark's ';'. */
  lemma PairReadsBackExactlyWhen(item: Item)
    requires item.Pair? && PairParts(item) && Solid(Core(item))
    ensures SplitPair(Core(item)) == Some((item.name, item.value)) <==> item.value != "" || item.gap == ""
  {
    hide Rstrip, Lskip, FindCharOrComment, SplitPair, PairParts, Solid, Core;
    if item.value != "" || item.gap == "" {
      PairCore(item);
    } else {
      SignFound(item);
      SignIs(item);
      SplitIs(Core(item), |item.name| + |item.before|);
      RemarkIsKept(item);
    }
  }

  lemma RemarkIsKept(item: Item)
    requires item.Pair? && PairParts(item) && item.value == "" && item.gap != ""
    ensures var value := Lskip(Core(item)[|item.name| + |item.before| + 1..]);
            Rstrip(value[..FindCharOrComment(value, None)]) != ""
  {
    hide Rstrip, Lskip, FindCharOrComment, NoRemark, Solid;
    TailIs(item);
    var rest := ";" + item.note;
    WhiteIsSpace(item.behind);
    WhiteIsSpace(item.gap);
    assert item.behind + ("" + (item.gap + ";" + item.note)) == (item.behind + item.gap) + rest;
    LskipWhite(item.behind + item.gap, rest);
    NoStopAtFirst(rest);
    var k := FindCharOrComment(rest, None);
    RstripKeepsFirst(rest[..k]);
  }

  lemma NoStopAtFirst(s: string)
    requires s != ""
    ensures FindCharOrComment(s, None) > 0
  {
  }

  lemma {:induction false} RstripKeepsFirst(s: string)
    requires s != "" && !IsSpace(s[0])
    ensures Rstrip(s) != ""
    decreases |s|
  {
    if IsSpace(s[|s| - 1]) {
      RstripKeepsFirst(s[..|s| - 1]);
    }
  }

  /** A remark directly behind the sign is taken for the value. */
  lemma RemarkBecomesValue(p: Parser)
    requires p.prevName == ""
    ensures ParseLine(p, 2, "a= ;b\n") == p.(prevName := "a", calls := p.calls + [Call(p.section, "a", ";b")])
  {
    hide ParseLine, SplitPair, FindCharOrComment;
    var s := "a= ;b";
    var line := Line("", Broken(s), "");
    assert Text(line) == "a= ;b\n";
    RemarkSplits();
    LineIs(p, 2, line);
  }

  lemma RemarkSplits()
    ensures SplitPair("a= ;b") == Some(("a", ";b"))
  {
    hide Rstrip, Lskip, FindCharOrComment;
    var s := "a= ;b";
    SearchIs(s, Some('='), 1);
    assert s[..1] == "a" && s[2..] == " " + ";b";
    LskipOne(";b");
    SearchIs(";b", None, 2);
    assert ";b"[..2] == ";b";
    RstripNone("a");
    RstripNone(";b");
  }
}
