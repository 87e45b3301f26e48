/** The .env file: its parser, its updater and its printer, and the writers that must never lose a secret.
    A string is a sequence of characters. */
module EnvFile {
  import opened Options
  import opened Text

  const PLACEHOLDER := "YOUR_API_KEY_HERE"

  /* ---- White space ---- */

  /** The characters strings.TrimSpace removes. */
  predicate IsSpace(c: char) {
    || '\t' <= c <= '\r' || c == ' ' || c == '\U{85}' || c == '\U{A0}' || c == '\U{1680}'
    || '\U{2000}' <= c <= '\U{200A}' || c == '\U{2028}' || c == '\U{2029}' || c == '\U{202F}' || c == '\U{205F}'
    || c == '\U{3000}'
  }

  ghost predicate AllSpace(s: string) {
    forall i :: 0 <= i < |s| ==> IsSpace(s[i])
  }

  /** No space at either end. */
  ghost predicate Clean(s: string) {
    s != [] ==> !IsSpace(s[0]) && !IsSpace(s[|s| - 1])
  }

  function TrimLeft(s: string): string {
    if s != [] && IsSpace(s[0]) then TrimLeft(s[1..]) else s
  }

  function TrimRight(s: string): string {
    if s != [] && IsSpace(s[|s| - 1]) then TrimRight(s[..|s| - 1]) else s
  }

  function Trim(s: string): string {
    TrimRight(TrimLeft(s))
  }

  lemma {:induction false} TrimLeftParts(s: string) returns (a: string)
    ensures s == a + TrimLeft(s) && AllSpace(a)
    ensures TrimLeft(s) != [] ==> !IsSpace(TrimLeft(s)[0])
  {
    a := [];
    if s != [] && IsSpace(s[0]) {
      var rest := TrimLeftParts(s[1..]);
      a := [s[0]] + rest;
    }
  }

  lemma {:induction false} TrimRightParts(s: string) returns (b: string)
    ensures s == TrimRight(s) + b && AllSpace(b)
    ensures TrimRight(s) != [] ==> !IsSpace(TrimRight(s)[|TrimRight(s)| - 1])
  {
    b := [];
    if s != [] && IsSpace(s[|s| - 1]) {
      var rest := TrimRightParts(s[..|s| - 1]);
      b := rest + [s[|s| - 1]];
    }
  }

  lemma {:induction false} TrimParts(s: string) returns (a: string, b: string)
    ensures s == a + Trim(s) + b && AllSpace(a) && AllSpace(b) && Clean(Trim(s))
  {
    a := TrimLeftParts(s);
    b := TrimRightParts(TrimLeft(s));
    assert TrimLeft(s) == Trim(s) + b;
  }

  lemma {:induction false} TrimLeftUnique(a: string, t: string)
    requires AllSpace(a) && (t != [] ==> !IsSpace(t[0]))
    ensures TrimLeft(a + t) == t
  {
    if a == [] {
      assert a + t == t;
    } else {
      assert (a + t)[1..] == a[1..] + t;
      TrimLeftUnique(a[1..], t);
    }
  }

  lemma {:induction false} TrimRightUnique(t: string, b: string)
    requires AllSpace(b) && (t != [] ==> !IsSpace(t[|t| - 1]))
    ensures TrimRight(t + b) == t
  {
    if b == [] {
      assert t + b == t;
    } else {
      assert (t + b)[..|t + b| - 1] == t + b[..|b| - 1];
      TrimRightUnique(t, b[..|b| - 1]);
    }
  }

  lemma {:induction false} TrimUnique(a: string, t: string, b: string)
    requires AllSpace(a) && AllSpace(b) && Clean(t)
    ensures Trim(a + t + b) == t
  {
    if t == [] {
      TrimLeftUnique(a + t + b, []);
      assert a + t + b + [] == a + t + b;
    } else {
      assert a + t + b == a + (t + b);
      TrimLeftUnique(a, t + b);
      TrimRightUnique(t, b);
    }
  }

  /** Spaces around a string do not change its trim. */
  lemma {:induction false} TrimPadded(a: string, s: string, b: string)
    requires AllSpace(a) && AllSpace(b)
    ensures Trim(a + s + b) == Trim(s)
  {
    var c, d := TrimParts(s);
    assert a + s + b == (a + c) + Trim(s) + (d + b);
    TrimUnique(a + c, Trim(s), d + b);
  }

  lemma {:induction false} TrimClean(s: string)
    requires Clean(s)
    ensures Trim(s) == s
  {
    TrimUnique([], s, []);
    assert [] + s + [] == s;
  }

  /* ---- Lines ---- */

  lemma {:induction false} IndexOfFirst(a: string, c: char, b: string)
    requires c !in a
    ensures IndexOf(a + [c] + b, c) == |a|
  {
    if a != [] {
      assert (a + [c] + b)[1..] == a[1..] + [c] + b;
      IndexOfFirst(a[1..], c, b);
    } else {
      assert a + [c] + b == [c] + b;
    }
  }

  /** strings.Split(s, "\n"). */
  function Split(s: string): (r: seq<string>)
    ensures r != []
    ensures forall line :: line in r ==> '\n' !in line
    decreases |s|
  {
    var i := IndexOf(s, '\n');
    if i < 0 then [s] else [s[..i]] + Split(s[i + 1..])
  }

  lemma {:induction false} SplitFirst(line: string, rest: string)
    requires '\n' !in line
    ensures Split(line + "\n" + rest) == [line] + Split(rest)
  {
    IndexOfFirst(line, '\n', rest);
    var s := line + "\n" + rest;
    assert s[..|line|] == line && s[|line| + 1..] == rest;
  }

  /** One line of the file: an entry when key is set, otherwise its raw text. */
  datatype EnvLine = EnvLine(key: string, value: string, raw: string)

  predicate IsComment(line: string) {
    var t := Trim(line);
    t != [] && t[0] == '#'
  }

  predicate IsBlank(line: string) {
    Trim(line) == []
  }

  /** How loadEnvFileLines reads one line. */
  function ParseLine(line: string): EnvLine {
    if IsBlank(line) || IsComment(line) then EnvLine("", "", line)
    else
      var i := IndexOf(line, '=');
      if i < 0 then EnvLine("", "", line) else EnvLine(Trim(line[..i]), line[i + 1..], "")
  }

  function ParseAll(lines: seq<string>): (r: seq<EnvLine>)
    ensures |r| == |lines|
    ensures forall i :: 0 <= i < |lines| ==> r[i] == ParseLine(lines[i])
  {
    if lines == [] then [] else ParseAll(lines[..|lines| - 1]) + [ParseLine(lines[|lines| - 1])]
  }

  predicate DropsLast(lines: seq<EnvLine>) {
    lines != [] && lines[|lines| - 1].key == "" && IsBlank(lines[|lines| - 1].raw)
  }

  /** loadEnvFileLines on the file's text: the blank line after the last newline is not kept. */
  function Parse(text: string): seq<EnvLine> {
    var lines := ParseAll(Split(text));
    if DropsLast(lines) then lines[..|lines| - 1] else lines
  }

  // In pieces, because the verifier does not look inside a long string literal.
  const HEADER_TITLE := "# EzyShield environment" + " \U{2014} generated by" + " 'ezyshield init'"
  const HEADER_NOTE := "# systemd loads this" + " via EnvironmentFile=" + " (see ezyshield.service)."
  const HEADER := [EnvLine("", "", HEADER_TITLE), EnvLine("", "", HEADER_NOTE)]

  function LineText(l: EnvLine): string {
    if l.key == "" then l.raw else l.key + "=" + l.value
  }

  predicate HasHeader(lines: seq<EnvLine>) {
    exists l :: l in lines && IsComment(l.raw)
  }

  function Body(lines: seq<EnvLine>): string {
    if lines == [] then "" else LineText(lines[0]) + "\n" + Body(lines[1..])
  }

  /** The lines that are printed: with the header first when no line is a comment. */
  function Headed(lines: seq<EnvLine>): seq<EnvLine> {
    if HasHeader(lines) then lines else HEADER + lines
  }

  /** renderEnvFile. */
  function Render(lines: seq<EnvLine>): string {
    Body(Headed(lines))
  }

  /* ---- Printing and parsing ---- */

  /** A name that can be a key. */
  ghost predicate ValidName(name: string) {
    name != [] && Clean(name) && name[0] != '#' && '=' !in name && '\n' !in name
  }

  /** A line the printer writes so that the parser reads it back. */
  ghost predicate WellFormed(l: EnvLine) {
    if l.key != "" then ValidName(l.key) && '\n' !in l.value && l.raw == ""
    else l.value == "" && '\n' !in l.raw && (IsBlank(l.raw) || IsComment(l.raw) || '=' !in l.raw)
  }

  ghost predicate AllWellFormed(lines: seq<EnvLine>) {
    forall l :: l in lines ==> WellFormed(l)
  }

  lemma {:induction false} ParseLineText(l: EnvLine)
    requires WellFormed(l)
    ensures ParseLine(LineText(l)) == l && '\n' !in LineText(l)
  {
    if l.key != "" {
      var line := l.key + "=" + l.value;
      var a, b := TrimParts(line);
      FirstChar(line);
      IndexOfFirst(l.key, '=', l.value);
      assert line[..|l.key|] == l.key && line[|l.key| + 1..] == l.value;
      TrimClean(l.key);
    }
  }

  lemma {:induction false} TrimRightKeepsFirst(s: string)
    requires s != [] && !IsSpace(s[0])
    ensures TrimRight(s) != [] && TrimRight(s)[0] == s[0]
  {
    if IsSpace(s[|s| - 1]) {
      TrimRightKeepsFirst(s[..|s| - 1]);
    }
  }

  /** A line that does not start with a space keeps its first character when trimmed. */
  lemma FirstChar(line: string)
    requires line != [] && !IsSpace(line[0])
    ensures Trim(line) != [] && Trim(line)[0] == line[0]
  {
    TrimRightKeepsFirst(line);
  }

  lemma {:induction false} SplitBody(lines: seq<EnvLine>, rest: string)
    requires AllWellFormed(lines)
    ensures Split(Body(lines) + rest) == Texts(lines) + Split(rest)
  {
    hide Split, WellFormed, LineText;
    if lines == [] {
      assert Body(lines) + rest == rest;
      assert Texts(lines) + Split(rest) == Split(rest);
    } else {
      ParseLineText(lines[0]);
      assert Body(lines) + rest == LineText(lines[0]) + "\n" + (Body(lines[1..]) + rest);
      SplitFirst(LineText(lines[0]), Body(lines[1..]) + rest);
      SplitBody(lines[1..], rest);
    }
  }

  function Texts(lines: seq<EnvLine>): (r: seq<string>)
    ensures |r| == |lines|
    ensures forall i :: 0 <= i < |lines| ==> r[i] == LineText(lines[i])
  {
    if lines == [] then [] else [LineText(lines[0])] + Texts(lines[1..])
  }

  lemma TitleIsComment()
    ensures IsComment(HEADER_TITLE) && '\n' !in HEADER_TITLE
  {
    hide Trim;
    assert HEADER_TITLE[0] == '#';
    FirstChar(HEADER_TITLE);
  }

  lemma NoteIsComment()
    ensures IsComment(HEADER_NOTE) && '\n' !in HEADER_NOTE
  {
    hide Trim;
    assert HEADER_NOTE[0] == '#';
    FirstChar(HEADER_NOTE);
  }

  lemma HeaderWellFormed()
    ensures AllWellFormed(HEADER) && forall l :: l in HEADER ==> IsComment(l.raw)
  {
    TitleIsComment();
    NoteIsComment();
    hide HEADER_TITLE, HEADER_NOTE;
  }

  /** Printing then parsing gives the printed lines back, blank ones at the end included. */
  lemma {:induction false} ParseRender(lines: seq<EnvLine>)
    requires AllWellFormed(lines)
    ensures Parse(Render(lines)) == Headed(lines)
  {
    HeaderWellFormed();
    var all := Headed(lines);
    SplitBody(all, "");
    assert Body(all) + "" == Body(all);
    var parsed := ParseAll(Split(Render(lines)));
    assert Split(Render(lines)) == Texts(all) + [""];
    forall i | 0 <= i < |all| ensures parsed[i] == all[i] {
      ParseLineText(all[i]);
    }
    assert parsed[|all|] == ParseLine("");
    assert parsed[..|all|] == all;
  }

  /* ---- Lines the parser makes ---- */

  /** A parsed line as the printer sees it: an entry without a key prints as a blank line. */
  function Printed(l: EnvLine): EnvLine {
    if l.key == "" then EnvLine("", "", l.raw) else l
  }

  function PrintedAll(lines: seq<EnvLine>): (r: seq<EnvLine>)
    ensures |r| == |lines|
    ensures forall i :: 0 <= i < |lines| ==> r[i] == Printed(lines[i])
  {
    if lines == [] then [] else [Printed(lines[0])] + PrintedAll(lines[1..])
  }

  lemma TrimContains(s: string, c: char)
    requires c !in s
    ensures c !in Trim(s)
  {
    hide Trim;
    var a, b := TrimParts(s);
    forall i | 0 <= i < |Trim(s)| ensures Trim(s)[i] != c {
      assert Trim(s)[i] == s[|a| + i];
    }
  }

  /** The key of an entry starts its trimmed line. */
  lemma KeyIsFirst(left: string, right: string)
    requires Trim(left) != []
    ensures Trim(left + right) != [] && Trim(left + right)[0] == Trim(left)[0]
  {
    hide Trim;
    var a, b := TrimParts(left);
    var rest := Trim(left) + (b + right);
    assert left + right == a + rest + [];
    TrimPadded(a, rest, []);
    FirstChar(rest);
  }

  lemma {:induction false} KeyIsValid(line: string, i: nat)
    requires '\n' !in line && !IsComment(line) && i < |line| && '=' !in line[..i]
    requires Trim(line[..i]) != []
    ensures ValidName(Trim(line[..i]))
  {
    hide Trim;
    var a, b := TrimParts(line[..i]);
    TrimContains(line[..i], '=');
    TrimContains(line[..i], '\n');
    KeyIsFirst(line[..i], line[i..]);
    assert line == line[..i] + line[i..];
  }

  lemma {:induction false} ParsedIsWellFormed(line: string)
    requires '\n' !in line
    ensures WellFormed(Printed(ParseLine(line)))
  {
    hide Trim, ValidName;
    var l := ParseLine(line);
    if l.key != "" {
      KeyIsValid(line, IndexOf(line, '='));
    } else if l.raw == "" {
      TrimClean("");
    }
  }

  lemma {:induction false} RenderPrinted(lines: seq<EnvLine>)
    ensures Render(PrintedAll(lines)) == Render(lines)
  {
    hide Body, HEADER_TITLE, HEADER_NOTE, IsComment;
    PrintedHeader(lines);
    BodyPrinted(lines);
    BodyPrinted(HEADER + lines);
    assert PrintedAll(HEADER + lines) == HEADER + PrintedAll(lines);
  }

  lemma {:induction false} BodyPrinted(lines: seq<EnvLine>)
    ensures Body(PrintedAll(lines)) == Body(lines)
  {
    if lines != [] {
      BodyPrinted(lines[1..]);
    }
  }

  lemma {:induction false} ParsedLines(text: string)
    ensures AllWellFormed(PrintedAll(Parse(text)))
  {
    var lines := Parse(text);
    forall l | l in PrintedAll(lines) ensures WellFormed(l) {
      var i :| 0 <= i < |lines| && PrintedAll(lines)[i] == l;
      assert lines[i] == ParseLine(Split(text)[i]);
      ParsedIsWellFormed(Split(text)[i]);
    }
  }

  /** Re-reading what was written gives the printed lines of the text. */
  lemma {:induction false} ParseRenderParse(text: string)
    ensures Parse(Render(Parse(text))) == Headed(PrintedAll(Parse(text)))
  {
    ParsedLines(text);
    RenderPrinted(Parse(text));
    ParseRender(PrintedAll(Parse(text)));
  }

  /** Parse-then-render is idempotent on every text: a second rewrite changes nothing. */
  lemma {:induction false} RewriteIdempotent(text: string)
    ensures Render(Parse(Render(Parse(text)))) == Render(Parse(text))
  {
    ParseRenderParse(text);
    var p := PrintedAll(Parse(text));
    RenderPrinted(Parse(text));
    HeaderWellFormed();
    assert HEADER[0] in HEADER + p;
    assert HasHeader(Headed(p));
  }

  /** A rewrite keeps every parsed line exactly when none is an entry with an empty key and a value. */
  lemma {:induction false} RewriteKeepsContent(text: string)
    ensures Parse(Render(Parse(text))) == Headed(Parse(text))
       <==> forall l :: l in Parse(text) && l.key == "" ==> l.value == ""
  {
    ParseRenderParse(text);
    PrintedHeader(Parse(text));
    PrintedSame(Parse(text));
  }

  /* ---- The lines of the text itself ---- */

  /** The lines of a text; a blank rest after the last newline is not one. */
  function Written(text: string): seq<string> {
    var lines := Split(text);
    if IsBlank(lines[|lines| - 1]) then lines[..|lines| - 1] else lines
  }

  /** An entry whose key is empty. */
  predicate EmptyKey(line: string) {
    !IsBlank(line) && !IsComment(line) && IndexOf(line, '=') >= 0 && Trim(line[..IndexOf(line, '=')]) == ""
  }

  /** A line but for the spaces around its key. */
  function Meant(line: string): string {
    if IsBlank(line) || IsComment(line) || IndexOf(line, '=') < 0 then line
    else Trim(line[..IndexOf(line, '=')]) + line[IndexOf(line, '=')..]
  }

  function MeantAll(lines: seq<string>): (r: seq<string>)
    ensures |r| == |lines|
    ensures forall i :: 0 <= i < |lines| ==> r[i] == Meant(lines[i])
  {
    if lines == [] then [] else [Meant(lines[0])] + MeantAll(lines[1..])
  }

  lemma LineIsMeant(line: string)
    ensures LineText(ParseLine(line)) == Meant(line) <==> !EmptyKey(line)
    ensures ParseLine(line).key == "" && IsBlank(ParseLine(line).raw) <==> IsBlank(line) || EmptyKey(line)
  {
    hide IsBlank, IsComment, Trim;
    EmptyLine();
    var i := IndexOf(line, '=');
    if i >= 0 {
      assert line[i..] == "=" + line[i + 1..];
    }
  }

  lemma {:induction false} PrintedAsMeant(parsed: seq<EnvLine>, lines: seq<string>)
    requires |parsed| == |lines| && forall i :: 0 <= i < |lines| ==> parsed[i] == ParseLine(lines[i])
    ensures Texts(parsed) == MeantAll(lines) <==> forall line :: line in lines ==> !EmptyKey(line)
  {
    hide ParseLine, LineText, Meant, EmptyKey, Texts, MeantAll;
    forall i | 0 <= i < |lines| ensures Texts(parsed)[i] == MeantAll(lines)[i] <==> !EmptyKey(lines[i]) {
      LineIsMeant(lines[i]);
    }
    if forall line :: line in lines ==> !EmptyKey(line) {
      assert forall i :: 0 <= i < |lines| ==> lines[i] in lines;
      assert Texts(parsed) == MeantAll(lines);
    }
  }

  /** What a rewrite prints after the header is every line of the text, exactly when none has an empty key. */
  lemma {:induction false} RewriteKeepsLines(text: string)
    ensures Texts(Parse(text)) == MeantAll(Written(text)) <==> forall line :: line in Written(text) ==> !EmptyKey(line)
  {
    hide ParseLine, EmptyKey, IsBlank, Texts, MeantAll;
    var lines, written := Split(text), Written(text);
    var last := |lines| - 1;
    LineIsMeant(lines[last]);
    if |Parse(text)| == |written| {
      PrintedAsMeant(Parse(text), written);
    } else {
      assert lines[last] in written && EmptyKey(lines[last]);
    }
  }

  /** A rewrite of the line `=x` prints a blank line, and without its newline no line at all. */
  lemma EmptyKeyIsLost()
    ensures Texts(Parse("=x" + "\n")) == [""] && MeantAll(Written("=x" + "\n")) == ["=x"]
    ensures Parse("=x") == []
  {
    EmptyKeyLine();
    EmptyLine();
    hide ParseLine, IsBlank, Meant;
    assert Split("=x") == ["=x"] && Split("") == [""];
    SplitFirst("=x", "");
    assert "=x" + "\n" + "" == "=x" + "\n";
    assert Split("=x" + "\n") == ["=x"] + [""] == ["=x", ""];
    var parsed := ParseAll(["=x", ""]);
    assert parsed[1] == EnvLine("", "", "") && DropsLast(parsed);
    assert parsed[..1] == [EnvLine("", "x", "")];
    assert ["=x", ""][..1] == ["=x"];
    assert ParseAll(["=x"]) == [EnvLine("", "x", "")];
  }

  lemma EmptyKeyLine()
    ensures ParseLine("=x") == EnvLine("", "x", "") && Meant("=x") == "=x"
  {
    var line := "=x";
    FirstChar(line);
    assert IndexOf(line, '=') == 0 && line[..0] == "" && line[1..] == "x" && line[0..] == line;
  }

  lemma {:induction false} PrintedHeader(lines: seq<EnvLine>)
    ensures HasHeader(PrintedAll(lines)) <==> HasHeader(lines)
    ensures Headed(PrintedAll(lines)) == Headed(lines) <==> PrintedAll(lines) == lines
  {
    var p := PrintedAll(lines);
    forall i | 0 <= i < |lines| ensures p[i] in p && lines[i] in lines && p[i].raw == lines[i].raw {}
    assert (HEADER + p)[|HEADER|..] == p && (HEADER + lines)[|HEADER|..] == lines;
  }

  lemma {:induction false} PrintedSame(lines: seq<EnvLine>)
    ensures PrintedAll(lines) == lines <==> forall l :: l in lines && l.key == "" ==> l.value == ""
  {
    forall i | 0 <= i < |lines|
      ensures PrintedAll(lines)[i] == lines[i] <==> (lines[i].key == "" ==> lines[i].value == "")
      ensures lines[i] in lines
    {
    }
  }

  /* ---- Reading a value ---- */

  function DropReturn(line: string): string {
    if line != [] && line[|line| - 1] == '\r' then line[..|line| - 1] else line
  }

  function DropReturns(lines: seq<string>): (r: seq<string>)
    ensures |r| == |lines|
    ensures forall i :: 0 <= i < |lines| ==> r[i] == DropReturn(lines[i])
  {
    if lines == [] then [] else [DropReturn(lines[0])] + DropReturns(lines[1..])
  }

  /** The tokens of a bufio.Scanner on the text. */
  function ScanLines(text: string): seq<string> {
    var lines := Split(text);
    DropReturns(if lines[|lines| - 1] == "" then lines[..|lines| - 1] else lines)
  }

  datatype Pair = Pair(key: string, value: string)

  /** How readEnvValue reads one line. */
  function ReadLine(token: string): Option<Pair> {
    var line := Trim(token);
    if line == [] || line[0] == '#' then None
    else
      var i := IndexOf(line, '=');
      if i < 0 then None else Some(Pair(Trim(line[..i]), Trim(line[i + 1..])))
  }

  function FindValue(tokens: seq<string>, name: string): Option<string> {
    if tokens == [] then None
    else
      var p := ReadLine(tokens[0]);
      if p.Some? && p.value.key == name then Some(p.value.value) else FindValue(tokens[1..], name)
  }

  /** What readEnvValue finds in a text. */
  function Read(text: string, name: string): Option<string> {
    FindValue(ScanLines(text), name)
  }

  /** What envValueFromLines finds in parsed lines. */
  function Lookup(lines: seq<EnvLine>, name: string): Option<string> {
    if lines == [] then None
    else if lines[0].key == name then Some(Trim(lines[0].value))
    else Lookup(lines[1..], name)
  }

  lemma {:induction false} TrimDropReturn(line: string)
    ensures Trim(DropReturn(line)) == Trim(line)
  {
    hide Trim;
    if line != [] && line[|line| - 1] == '\r' {
      var init := line[..|line| - 1];
      assert line == [] + init + ['\r'];
      TrimPadded([], init, ['\r']);
    }
  }

  lemma NotInSpaces(s: string, c: char)
    requires AllSpace(s) && !IsSpace(c)
    ensures c !in s
  {
  }

  lemma {:induction false} SplitsAlike(line: string, a: string, t: string, b: string)
    requires line == a + t + b && AllSpace(a) && AllSpace(b)
    ensures (IndexOf(line, '=') < 0) == (IndexOf(t, '=') < 0)
    ensures var i, j := IndexOf(line, '='), IndexOf(t, '=');
            j >= 0 ==> Trim(line[..i]) == Trim(t[..j]) && Trim(line[i + 1..]) == Trim(t[j + 1..])
  {
    hide Trim;
    NotInSpaces(a, '=');
    NotInSpaces(b, '=');
    var j := IndexOf(t, '=');
    if j >= 0 {
      var left, right := t[..j], t[j + 1..];
      assert line == (a + left) + ['='] + (right + b);
      IndexOfFirst(a + left, '=', right + b);
      TrimPadded(a, left, []);
      TrimPadded([], right, b);
      assert line[..|a| + j] == a + left + [] && line[|a| + j + 1..] == [] + right + b;
    }
  }

  /** The two readers agree on every line and every key. */
  lemma {:induction false} LineAgrees(line: string, name: string)
    requires name != ""
    ensures var p, l := ReadLine(DropReturn(line)), ParseLine(line);
            && (p.Some? && p.value.key == name <==> l.key == name)
            && (l.key == name ==> p.value.value == Trim(l.value))
  {
    TrimDropReturn(line);
    var a, b := TrimParts(line);
    SplitsAlike(line, a, Trim(line), b);
    hide Trim, IndexOf;
  }

  lemma {:induction false} FindAgrees(lines: seq<string>, name: string)
    requires name != ""
    ensures FindValue(DropReturns(lines), name) == Lookup(ParseAll(lines), name)
  {
    hide ReadLine, ParseLine, DropReturn;
    if lines != [] {
      LineAgrees(lines[0], name);
      FindAgrees(lines[1..], name);
      assert DropReturns(lines)[1..] == DropReturns(lines[1..]);
      assert ParseAll(lines)[1..] == ParseAll(lines[1..]);
    }
  }

  lemma {:induction false} LookupDropLast(lines: seq<EnvLine>, name: string)
    requires lines != [] && lines[|lines| - 1].key != name
    ensures Lookup(lines[..|lines| - 1], name) == Lookup(lines, name)
  {
    if |lines| > 1 {
      LookupDropLast(lines[1..], name);
      assert lines[1..][..|lines| - 2] == lines[..|lines| - 1][1..];
    }
  }

  /** Reading the file for a key and looking the key up among its parsed lines give the same value. */
  lemma {:induction false} ReadIsLookup(text: string, name: string)
    requires name != ""
    ensures Read(text, name) == Lookup(Parse(text), name)
  {
    hide Trim;
    var lines := Split(text);
    var parsed := ParseAll(lines);
    if lines[|lines| - 1] == "" {
      var init := lines[..|lines| - 1];
      FindAgrees(init, name);
      assert ParseAll(init) == parsed[..|parsed| - 1];
      EmptyLine();
    } else {
      FindAgrees(lines, name);
      if DropsLast(parsed) {
        LookupDropLast(parsed, name);
      }
    }
  }

  lemma EmptyLine()
    ensures ParseLine("") == EnvLine("", "", "") && IsBlank("")
  {
  }

  /* ---- Updating ---- */

  /** upsertEnvLine as a function: the first line of the key gets the value, or a new line does. */
  function Upsert(lines: seq<EnvLine>, key: string, value: string): seq<EnvLine> {
    if lines == [] then [EnvLine(key, value, "")]
    else if lines[0].key == key then [lines[0].(value := value)] + lines[1..]
    else [lines[0]] + Upsert(lines[1..], key, value)
  }

  /** Read-after-write on lines, and nothing else changes. */
  lemma {:induction false} LookupUpsert(lines: seq<EnvLine>, key: string, value: string, name: string)
    ensures Lookup(Upsert(lines, key, value), name) == if name == key then Some(Trim(value)) else Lookup(lines, name)
  {
    hide Trim;
    if lines != [] && lines[0].key != key {
      LookupUpsert(lines[1..], key, value, name);
    }
  }

  lemma {:induction false} UpsertPrinted(lines: seq<EnvLine>, key: string, value: string)
    requires key != ""
    ensures PrintedAll(Upsert(lines, key, value)) == Upsert(PrintedAll(lines), key, value)
  {
    if lines != [] && lines[0].key != key {
      UpsertPrinted(lines[1..], key, value);
      assert PrintedAll(lines) == [Printed(lines[0])] + PrintedAll(lines[1..]);
    }
  }

  lemma {:induction false} UpsertWellFormed(lines: seq<EnvLine>, key: string, value: string)
    requires AllWellFormed(lines) && ValidName(key) && '\n' !in value
    ensures AllWellFormed(Upsert(lines, key, value))
  {
    hide ValidName;
    assert key != "" by {
      KeyNonEmpty(key);
    }
    if lines != [] {
      assert lines[0] in lines;
      if lines[0].key != key {
        UpsertWellFormed(lines[1..], key, value);
      }
    }
  }

  lemma KeyNonEmpty(key: string)
    requires ValidName(key)
    ensures key != ""
  {
  }

  lemma {:induction false} LookupPrinted(lines: seq<EnvLine>, name: string)
    requires name != ""
    ensures Lookup(PrintedAll(lines), name) == Lookup(lines, name)
  {
    if lines != [] {
      LookupPrinted(lines[1..], name);
    }
  }

  /** What is printed is read back. */
  lemma {:induction false} ReadRendered(lines: seq<EnvLine>, name: string)
    requires AllWellFormed(PrintedAll(lines)) && name != ""
    ensures Read(Render(lines), name) == Lookup(lines, name)
  {
    hide Read, Render, Parse, WellFormed, HEADER_TITLE, HEADER_NOTE;
    var p := PrintedAll(lines);
    RenderPrinted(lines);
    ParseRender(p);
    ReadIsLookup(Render(p), name);
    assert (HEADER + p)[1..][1..] == p;
    LookupPrinted(lines, name);
  }

  /** Load, upsert, render: afterwards the key reads as the trimmed new value and every other key as before. */
  lemma {:induction false} ReadAfterWrite(text: string, key: string, value: string, name: string)
    requires ValidName(key) && '\n' !in value && name != ""
    ensures Read(Render(Upsert(Parse(text), key, value)), name)
         == if name == key then Some(Trim(value)) else Read(text, name)
  {
    hide Read, Render, Parse, Trim, ValidName;
    var lines := Parse(text);
    KeyNonEmpty(key);
    ParsedLines(text);
    UpsertPrinted(lines, key, value);
    UpsertWellFormed(PrintedAll(lines), key, value);
    ReadRendered(Upsert(lines, key, value), name);
    LookupUpsert(lines, key, value, name);
    ReadIsLookup(text, name);
  }

  /* ---- Placeholders ---- */

  /** Whether a name needs a placeholder: it reads as absent or as empty. */
  predicate Needs(v: Option<string>) {
    v.None? || v.value == ""
  }

  /** The loop of ensureEnvPlaceholders. */
  function Fill(lines: seq<EnvLine>, names: seq<string>): seq<EnvLine> {
    if names == [] then lines
    else
      var rest := Fill(lines, names[..|names| - 1]);
      var name := names[|names| - 1];
      if name != "" && Needs(Lookup(rest, name)) then Upsert(rest, name, PLACEHOLDER) else rest
  }

  lemma PlaceholderIsClean()
    ensures Trim(PLACEHOLDER) == PLACEHOLDER && '\n' !in PLACEHOLDER && PLACEHOLDER != ""
    ensures PLACEHOLDER == "YOUR_API_KEY_HERE"
  {
    TrimClean(PLACEHOLDER);
  }

  /** Filling gives every needy requested name the placeholder and leaves every other value alone. */
  lemma {:induction false} LookupFill(lines: seq<EnvLine>, names: seq<string>, name: string)
    requires name != ""
    ensures Lookup(Fill(lines, names), name)
         == if name in names && Needs(Lookup(lines, name)) then Some(PLACEHOLDER) else Lookup(lines, name)
  {
    PlaceholderIsClean();
    hide Trim, PLACEHOLDER;
    if names != [] {
      var init, last := names[..|names| - 1], names[|names| - 1];
      LookupFill(lines, init, name);
      LookupUpsert(Fill(lines, init), last, PLACEHOLDER, name);
      assert name in names <==> name in init || name == last by {
        assert names == init + [last];
      }
    }
  }

  lemma {:induction false} FillWellFormed(lines: seq<EnvLine>, names: seq<string>)
    requires AllWellFormed(PrintedAll(lines))
    requires forall name :: name in names && name != "" ==> ValidName(name)
    ensures AllWellFormed(PrintedAll(Fill(lines, names)))
  {
    PlaceholderIsClean();
    hide ValidName, PLACEHOLDER, WellFormed;
    if names != [] {
      var init, last := names[..|names| - 1], names[|names| - 1];
      FillWellFormed(lines, init);
      if last != "" {
        UpsertPrinted(Fill(lines, init), last, PLACEHOLDER);
        UpsertWellFormed(PrintedAll(Fill(lines, init)), last, PLACEHOLDER);
      }
    }
  }

  /** Placeholders on a text: no real value is replaced, every requested name ends non-empty, no other key changes. */
  lemma {:induction false} ReadAfterFill(text: string, names: seq<string>, name: string)
    requires forall n :: n in names && n != "" ==> ValidName(n)
    requires name != ""
    ensures Read(Render(Fill(Parse(text), names)), name)
         == if name in names && Needs(Read(text, name)) then Some(PLACEHOLDER) else Read(text, name)
  {
    hide Read, Render, Parse, ValidName, PLACEHOLDER;
    ParsedLines(text);
    FillWellFormed(Parse(text), names);
    ReadRendered(Fill(Parse(text), names), name);
    LookupFill(Parse(text), names, name);
    ReadIsLookup(text, name);
  }

  /* ---- A text of which only the start is there ---- */

  /** How much of the printed lines must be there for name to read as it should: up to the last character of the
      value of its first entry that is not a space. */
  function Needed(lines: seq<EnvLine>, name: string): nat {
    if Lookup(lines, name).None? then 0
    else if lines[0].key == name then |name| + 1 + |TrimRight(lines[0].value)|
    else |LineText(lines[0])| + 1 + Needed(lines[1..], name)
  }

  /** A string has one first character that is not a space. */
  lemma LeadIsOne(s: string, m: nat, n: nat)
    requires m < |s| && n < |s| && !IsSpace(s[m]) && !IsSpace(s[n])
    requires forall i :: 0 <= i < m ==> IsSpace(s[i])
    requires forall i :: 0 <= i < n ==> IsSpace(s[i])
    ensures m == n
  {
  }

  lemma {:induction false} OnlyLeading(t: string) returns (a: string)
    requires t != [] && !IsSpace(t[|t| - 1])
    ensures t == a + Trim(t) && AllSpace(a) && |a| < |t| && !IsSpace(t[|a|])
  {
    var c;
    a, c := TrimParts(t);
    hide Trim;
    assert c == [];
  }

  lemma {:induction false} TrimCut(v: string, j: nat)
    requires j <= |v|
    ensures Trim(v[..j]) == Trim(v) <==> |TrimRight(v)| <= j
  {
    var t := TrimRight(v);
    var b := TrimRightParts(v);
    hide Trim, TrimRight;
    TrimPadded([], t, b);
    assert [] + t + b == v;
    if |t| <= j {
      TrimPadded([], t, b[..j - |t|]);
      assert [] + t + b[..j - |t|] == v[..j];
    } else {
      var a := OnlyLeading(t);
      var a2, c2 := TrimParts(v[..j]);
      if Trim(v[..j]) != [] {
        assert v[|a|] == t[|a|];
        LeadIsOne(v, |a|, |a2|);
      }
    }
  }

  /** The start of a line: an entry whose `=` is there keeps its key, anything else is no entry. */
  lemma {:induction false} ParseCut(l: EnvLine, k: nat)
    requires WellFormed(l) && k <= |LineText(l)|
    ensures var cut := ParseLine(LineText(l)[..k]);
            if l.key != "" && k > |l.key| then cut == EnvLine(l.key, l.value[..k - |l.key| - 1], "") else cut.key == ""
  {
    var line := LineText(l)[..k];
    if l.key != "" && k > |l.key| {
      var shorter := l.(value := l.value[..k - |l.key| - 1]);
      assert line == LineText(shorter);
      ParseLineText(shorter);
    } else if l.key != "" {
      assert line == l.key[..k];
      assert '=' !in line;
    } else {
      CutIsNoEntry(l.raw, k);
    }
  }

  lemma {:induction false} CutIsNoEntry(raw: string, k: nat)
    requires k <= |raw| && (IsBlank(raw) || IsComment(raw) || '=' !in raw)
    ensures ParseLine(raw[..k]).key == ""
  {
    var a, b := TrimParts(raw);
    var c, d := TrimParts(raw[..k]);
    hide Trim;
    if IsBlank(raw) {
      assert raw == a + b;
      TrimUnique(raw[..k], [], []);
      assert raw[..k] + [] + [] == raw[..k];
    } else if IsComment(raw) && Trim(raw[..k]) != [] {
      LeadIsOne(raw, |a|, |c|);
    }
  }

  lemma {:induction false} ReadIsLookupAll(text: string, name: string)
    requires name != ""
    ensures Read(text, name) == Lookup(ParseAll(Split(text)), name)
  {
    ReadIsLookup(text, name);
    var parsed := ParseAll(Split(text));
    if DropsLast(parsed) {
      LookupDropLast(parsed, name);
    }
  }

  lemma ParseFirst(line: string, rest: string)
    requires '\n' !in line
    ensures ParseAll(Split(line + "\n" + rest)) == [ParseLine(line)] + ParseAll(Split(rest))
  {
    hide ParseLine, Split;
    SplitFirst(line, rest);
  }

  lemma ParseOnly(line: string)
    requires '\n' !in line
    ensures ParseAll(Split(line)) == [ParseLine(line)]
  {
    hide ParseLine;
  }

  lemma NeededIsThere(lines: seq<EnvLine>, name: string)
    requires Lookup(lines, name).Some?
    ensures Needed(lines, name) > 0
  {
  }

  /** Of printed lines cut at k, a key reads as it should exactly when what it needs lies before the cut. */
  lemma {:induction false} ReadCut(lines: seq<EnvLine>, k: nat, name: string)
    requires AllWellFormed(lines) && name != "" && k <= |Body(lines)|
    ensures Read(Body(lines)[..k], name) == Lookup(lines, name) <==> Needed(lines, name) <= k
  {
    ReadIsLookupAll(Body(lines)[..k], name);
    LookupCut(lines, k, name);
  }

  lemma {:induction false} LookupCut(lines: seq<EnvLine>, k: nat, name: string)
    requires AllWellFormed(lines) && name != "" && k <= |Body(lines)|
    ensures Lookup(ParseAll(Split(Body(lines)[..k])), name) == Lookup(lines, name) <==> Needed(lines, name) <= k
  {
    hide Split, ParseLine, ParseAll, WellFormed, Trim, TrimRight;
    if lines == [] {
      ParseOnly("");
      EmptyLine();
      assert Body(lines)[..k] == "";
    } else {
      var l, rest := lines[0], lines[1..];
      var text := LineText(l);
      ParseLineText(l);
      assert Body(lines) == text + "\n" + Body(rest);
      if k > |text| {
        var j := k - |text| - 1;
        assert Body(lines)[..k] == text + "\n" + Body(rest)[..j];
        ParseFirst(text, Body(rest)[..j]);
        assert ([l] + ParseAll(Split(Body(rest)[..j])))[1..] == ParseAll(Split(Body(rest)[..j]));
        LookupCut(rest, j, name);
        TrimRightLength(l.value);
      } else {
        CutInFirst(lines, k, name);
      }
    }
  }

  lemma {:induction false} TrimRightLength(s: string)
    ensures |TrimRight(s)| <= |s|
  {
    var b := TrimRightParts(s);
  }

  lemma {:induction false} CutInFirst(lines: seq<EnvLine>, k: nat, name: string)
    requires AllWellFormed(lines) && name != "" && lines != [] && k <= |LineText(lines[0])|
    ensures Lookup(ParseAll(Split(Body(lines)[..k])), name) == Lookup(lines, name) <==> Needed(lines, name) <= k
  {
    hide Split, ParseLine, ParseAll, WellFormed, Trim, TrimRight;
    var l, rest := lines[0], lines[1..];
    var cut := LineText(l)[..k];
    assert Body(lines)[..k] == cut;
    ParseLineText(l);
    assert '\n' !in cut;
    ParseOnly(cut);
    ParseCut(l, k);
    if l.key == name {
      if k > |name| {
        TrimCut(l.value, k - |name| - 1);
      }
    } else if Lookup(rest, name).Some? {
      NeededIsThere(rest, name);
    }
  }

  lemma {:induction false} FillNothing(lines: seq<EnvLine>, names: seq<string>)
    requires forall name :: name in names && name != "" ==> !Needs(Lookup(lines, name))
    ensures Fill(lines, names) == lines
  {
    hide Lookup;
    if names != [] {
      assert forall name :: name in names[..|names| - 1] ==> name in names;
      FillNothing(lines, names[..|names| - 1]);
    }
  }

  /** A second placeholder run finds nothing to do: after the first no requested name is without a value, so filling the
      lines read back changes nothing. */
  lemma {:induction false} SecondRunFindsNothing(text: string, names: seq<string>)
    requires forall n :: n in names && n != "" ==> ValidName(n)
    ensures var after := Render(Fill(Parse(text), names));
            && (forall name :: name in names && name != "" ==> !Needs(Read(after, name)))
            && Fill(Parse(after), names) == Parse(after)
  {
    PlaceholderIsClean();
    hide Read, Render, Fill, Parse, ValidName, Lookup, PLACEHOLDER;
    var after := Render(Fill(Parse(text), names));
    forall name | name in names && name != "" ensures !Needs(Read(after, name)) && !Needs(Lookup(Parse(after), name)) {
      ReadAfterFill(text, names, name);
      ReadIsLookup(after, name);
    }
    FillNothing(Parse(after), names);
  }

  /** The lines a placeholder run prints. */
  function Filled(lines: seq<EnvLine>, names: seq<string>): seq<EnvLine> {
    Headed(PrintedAll(Fill(lines, names)))
  }

  /** When a placeholder run's write is cut at k, a key reads as in the whole text exactly when what it needs lies
      before the cut. */
  lemma {:induction false} ReadAfterCut(text: string, names: seq<string>, k: nat, name: string)
    requires forall n :: n in names && n != "" ==> ValidName(n)
    requires name != "" && k <= |Render(Fill(Parse(text), names))|
    ensures var body := Render(Fill(Parse(text), names));
            Read(body[..k], name) == Read(body, name) <==> Needed(Filled(Parse(text), names), name) <= k
  {
    hide Read, Parse, ValidName, PLACEHOLDER, WellFormed, HEADER_TITLE, HEADER_NOTE, Body, LineText, Trim;
    ParsedLines(text);
    FillWellFormed(Parse(text), names);
    var lines := Fill(Parse(text), names);
    RenderPrinted(lines);
    HeaderWellFormed();
    ReadRendered(lines, name);
    LookupPrinted(lines, name);
    var p := PrintedAll(lines);
    assert (HEADER + p)[1..][1..] == p;
    hide HEADER;
    ReadCut(Headed(p), k, name);
  }

  /* ---- The loops ---- */

  /** The body of loadEnvFileLines's loop. */
  method LoadLine(line: string) returns (l: EnvLine)
    ensures l == ParseLine(line)
  {
    var trim := Trim(line);
    if trim == "" || trim[0] == '#' {
      return EnvLine("", "", line);
    }
    var eq := IndexOf(line, '=');
    if eq < 0 {
      return EnvLine("", "", line);
    }
    return EnvLine(Trim(line[..eq]), line[eq + 1..], "");
  }

  /** loadEnvFileLines on the file's text. */
  method LoadLines(text: string) returns (lines: seq<EnvLine>)
    ensures lines == Parse(text)
  {
    hide Trim, ParseLine;
    var split := Split(text);
    lines := [];
    for i := 0 to |split|
      invariant lines == ParseAll(split[..i])
    {
      assert split[..i + 1][..i] == split[..i];
      var l := LoadLine(split[i]);
      lines := lines + [l];
    }
    assert split[..|split|] == split;
    var n := |lines|;
    if n > 0 && lines[n - 1].key == "" && Trim(lines[n - 1].raw) == "" {
      lines := lines[..n - 1];
    }
  }

  /** upsertEnvLine. */
  method UpsertLine(lines: seq<EnvLine>, key: string, value: string) returns (r: seq<EnvLine>)
    ensures r == Upsert(lines, key, value)
  {
    for i := 0 to |lines|
      invariant Upsert(lines, key, value) == lines[..i] + Upsert(lines[i..], key, value)
    {
      if lines[i].key == key {
        r := lines[i := lines[i].(value := value)];
        assert r == lines[..i] + ([lines[i].(value := value)] + lines[i..][1..]);
        return;
      }
      assert lines[i..][1..] == lines[i + 1..];
      assert lines[..i] + ([lines[i]] + Upsert(lines[i + 1..], key, value))
              == lines[..i + 1] + Upsert(lines[i + 1..], key, value);
    }
    assert lines[..|lines|] == lines && lines[|lines|..] == [];
    r := lines + [EnvLine(key, value, "")];
  }

  lemma {:induction false} BodySnoc(lines: seq<EnvLine>, l: EnvLine)
    ensures Body(lines + [l]) == Body(lines) + LineText(l) + "\n"
  {
    hide LineText;
    if lines == [] {
      assert lines + [l] == [l] && Body([l]) == LineText(l) + "\n" + "";
    } else {
      BodySnoc(lines[1..], l);
      assert (lines + [l])[1..] == lines[1..] + [l];
      var head, rest := LineText(lines[0]) + "\n", Body(lines[1..]);
      assert head + (rest + LineText(l) + "\n") == (head + rest) + LineText(l) + "\n";
    }
  }

  /** The header scan of renderEnvFile. */
  method FindHeader(lines: seq<EnvLine>) returns (hasHeader: bool)
    ensures hasHeader <==> HasHeader(lines)
  {
    hide IsComment;
    for i := 0 to |lines|
      invariant forall l :: l in lines[..i] ==> !IsComment(l.raw)
    {
      assert lines[..i + 1] == lines[..i] + [lines[i]];
      if IsComment(lines[i].raw) {
        return true;
      }
    }
    assert lines[..|lines|] == lines;
    return false;
  }

  /** The printing loop of renderEnvFile. */
  method PrintLines(start: string, ghost done: seq<EnvLine>, lines: seq<EnvLine>) returns (text: string)
    requires start == Body(done)
    ensures text == Body(done + lines)
  {
    hide Body;
    text := start;
    assert done + lines[..0] == done;
    for i := 0 to |lines|
      invariant text == Body(done + lines[..i])
    {
      assert done + lines[..i + 1] == (done + lines[..i]) + [lines[i]];
      BodySnoc(done + lines[..i], lines[i]);
      if lines[i].key == "" {
        text := text + lines[i].raw + "\n";
        continue;
      }
      text := text + (lines[i].key + "=" + lines[i].value) + "\n";
    }
    assert lines[..|lines|] == lines;
  }

  /** renderEnvFile. */
  method RenderLines(lines: seq<EnvLine>) returns (text: string)
    ensures text == Render(lines)
  {
    hide IsComment, HEADER_TITLE, HEADER_NOTE, Body, HasHeader;
    var hasHeader := FindHeader(lines);
    text := "";
    ghost var done: seq<EnvLine> := [];
    EmptyBody();
    if !hasHeader {
      text := text + HEADER_TITLE + "\n";
      text := text + HEADER_NOTE + "\n";
      HeaderBody();
      done := HEADER;
    }
    assert [] + lines == lines && done + lines == Headed(lines);
    text := PrintLines(text, done, lines);
  }

  lemma HeaderBody()
    ensures Body(HEADER) == "" + HEADER_TITLE + "\n" + HEADER_NOTE + "\n"
  {
    hide HEADER_TITLE, HEADER_NOTE;
    EmptyBody();
    BodySnoc([], HEADER[0]);
    BodySnoc([HEADER[0]], HEADER[1]);
    assert [] + [HEADER[0]] == [HEADER[0]] && [HEADER[0]] + [HEADER[1]] == HEADER;
  }

  lemma EmptyBody()
    ensures Body([]) == ""
  {
  }

  /** envValueFromLines. */
  method ValueFromLines(lines: seq<EnvLine>, name: string) returns (v: Option<string>)
    ensures v == Lookup(lines, name)
  {
    for i := 0 to |lines|
      invariant Lookup(lines, name) == Lookup(lines[i..], name)
    {
      if lines[i].key == name {
        return Some(Trim(lines[i].value));
      }
      assert lines[i..][1..] == lines[i + 1..];
    }
    return None;
  }

  /** One turn of readEnvValue's scan. */
  method ScanToken(token: string) returns (p: Option<Pair>)
    ensures p == ReadLine(token)
  {
    var line := Trim(token);
    if line == "" || line[0] == '#' {
      return None;
    }
    var eq := IndexOf(line, '=');
    if eq < 0 {
      return None;
    }
    return Some(Pair(Trim(line[..eq]), Trim(line[eq + 1..])));
  }

  /** The scan of readEnvValue. */
  method ScanFor(text: string, name: string) returns (v: Option<string>)
    ensures v == Read(text, name)
  {
    hide ReadLine, ScanLines;
    var tokens := ScanLines(text);
    for i := 0 to |tokens|
      invariant Read(text, name) == FindValue(tokens[i..], name)
    {
      assert tokens[i..][1..] == tokens[i + 1..];
      var p := ScanToken(tokens[i]);
      if p.Some? && p.value.key == name {
        return Some(p.value.value);
      }
    }
    return None;
  }

  /* ---- The file ---- */

  /** How one write to the file ends: it failed before a byte was touched, or after kept characters were written, or the
      text is there but its ownership could not be set. */
  datatype WriteOutcome = Written | OpenFailed | WriteFailed(kept: nat) | OwnershipFailed {
    /** Nothing of the text is installed when the file is replaced atomically. */
    predicate NotReplaced() {
      OpenFailed? || WriteFailed?
    }
  }

  class EnvStore {
    // The file's text, or None when there is no file.
    var text: Option<string>

    ghost function Value(name: string): Option<string>
      reads this
    {
      if text.None? then None else Read(text.value, name)
    }

    /** The lines of the file; none when it is missing. */
    ghost function LinesOf(): seq<EnvLine>
      reads this
    {
      if text.None? then [] else Parse(text.value)
    }

    method Load() returns (lines: seq<EnvLine>)
      ensures lines == LinesOf()
    {
      if text.None? {
        return [];
      }
      lines := LoadLines(text.value);
    }

    /** readEnvValue. */
    method ReadValue(name: string) returns (v: Option<string>)
      ensures v == Value(name)
    {
      if text.None? {
        return None;
      }
      v := ScanFor(text.value, name);
    }

    /** atomicWriteFile and applyDaemonOwnership: a failed write leaves the file as it was. */
    method WriteAtomic(body: string, outcome: WriteOutcome) returns (ok: bool)
      modifies this
      ensures ok <==> outcome.Written?
      ensures text == if outcome.NotReplaced() then old(text) else Some(body)
    {
      if !outcome.NotReplaced() {
        text := Some(body);
      }
      ok := outcome.Written?;
    }

    /** os.WriteFile and applyDaemonOwnership: a failed open leaves the file as it was, a failed write a prefix of the
        body. */
    method WriteInPlace(body: string, outcome: WriteOutcome) returns (ok: bool)
      modifies this
      ensures ok <==> outcome.Written?
      ensures text == if outcome.OpenFailed? then old(text)
                      else Some(if outcome.WriteFailed? && outcome.kept < |body| then body[..outcome.kept] else body)
    {
      assert body[..|body|] == body;
      if outcome.WriteFailed? {
        text := Some(body[..if outcome.kept < |body| then outcome.kept else |body|]);
      } else if !outcome.OpenFailed? {
        text := Some(body);
      }
      ok := outcome.Written?;
    }

    /** A missing file holds no value and parses like an empty one. */
    lemma MissingIsEmpty()
      requires text.None?
      ensures Parse("") == [] && forall name :: name != "" ==> Read("", name) == None
    {
      EmptyLine();
      assert ParseAll(Split(""))[0] == ParseLine("");
      forall name | name != "" ensures Read("", name) == None {
        ReadIsLookup("", name);
      }
    }

    /** writeEnvFileContent: the key takes the value, every other key keeps its own, and a failure changes nothing. */
    method WriteContent(name: string, value: string, outcome: WriteOutcome) returns (ok: bool)
      requires ValidName(name) && '\n' !in value
      modifies this
      ensures ok <==> outcome.Written?
      ensures outcome.NotReplaced() ==> text == old(text)
      ensures !outcome.NotReplaced() ==>
                forall n :: n != "" ==> Value(n) == if n == name then Some(Trim(value)) else old(Value(n))
    {
      hide Read, Parse, Render, Upsert, ValidName;
      ghost var before := if text.None? then "" else text.value;
      if text.None? {
        MissingIsEmpty();
      }
      var lines := Load();
      lines := UpsertLine(lines, name, value);
      var body := RenderLines(lines);
      forall n | n != "" ensures Read(body, n) == if n == name then Some(Trim(value)) else Read(before, n) {
        ReadAfterWrite(before, name, value, n);
      }
      ok := WriteAtomic(body, outcome);
    }

    /** writeOrKeepEnvFile: without a token a real value is kept untouched; otherwise the token, or the placeholder,
        is written. Either way the key ends with a value. */
    method WriteOrKeep(keyEnvVar: string, token: string, outcome: WriteOutcome)
        returns (wrote: bool, kept: bool, ok: bool)
      requires keyEnvVar != "" ==> ValidName(keyEnvVar)
      requires '\n' !in token
      modifies this
      ensures kept <==>
                keyEnvVar != "" && token == ""
                && old(Value(keyEnvVar)).Some?
                && old(Value(keyEnvVar)).value != "" && old(Value(keyEnvVar)).value != PLACEHOLDER
      ensures keyEnvVar == "" || kept ==> !wrote && ok && text == old(text)
      ensures keyEnvVar != "" && !kept ==> wrote == ok == outcome.Written?
      ensures keyEnvVar != "" && !kept ==>
                if outcome.NotReplaced() then text == old(text)
                else forall n :: n != "" ==>
                       Value(n) == if n == keyEnvVar then Some(if token == "" then PLACEHOLDER else Trim(token))
                                   else old(Value(n))
    {
      hide Read, Parse, ValidName;
      PlaceholderIsClean();
      hide Trim, PLACEHOLDER;
      if keyEnvVar == "" {
        return false, false, true;
      }
      if token == "" {
        var existing := ReadValue(keyEnvVar);
        if existing.Some? && existing.value != "" && existing.value != PLACEHOLDER {
          return false, true, true;
        }
      }
      var value := token;
      if value == "" {
        value := PLACEHOLDER;
      }
      ok := WriteContent(keyEnvVar, value, outcome);
      return ok, false, ok;
    }

    /** The loop of ensureEnvPlaceholders. */
    method FillPlaceholders(start: seq<EnvLine>, names: seq<string>) returns (lines: seq<EnvLine>, changed: bool)
      ensures lines == Fill(start, names)
      ensures changed <==> exists name :: name in names && name != "" && Needs(Lookup(start, name))
    {
      hide Lookup, Trim, PLACEHOLDER;
      lines, changed := start, false;
      for i := 0 to |names|
        invariant lines == Fill(start, names[..i])
        invariant changed <==> exists name :: name in names[..i] && name != "" && Needs(Lookup(start, name))
      {
        var name := names[i];
        assert names[..i + 1] == names[..i] + [name] && names[..i + 1][..i] == names[..i];
        if name == "" {
          continue;
        }
        LookupFill(start, names[..i], name);
        PlaceholderIsClean();
        var v := ValueFromLines(lines, name);
        if v.Some? {
          if v.value != "" && v.value != PLACEHOLDER {
            continue;
          }
          if v.value == PLACEHOLDER {
            continue;
          }
        }
        lines := UpsertLine(lines, name, PLACEHOLDER);
        changed := true;
      }
      assert names[..|names|] == names;
    }

    /** ensureEnvPlaceholders. It touches the file exactly when some requested name has no value; then every such name
        reads as the placeholder and every other key as before. When the write fails half-way this holds of exactly the
        keys whose needed characters were written. */
    method EnsurePlaceholders(names: seq<string>, outcome: WriteOutcome) returns (touched: bool, ok: bool)
      requires forall n :: n in names && n != "" ==> ValidName(n)
      modifies this
      ensures var needed := exists name :: name in names && name != "" && Needs(old(Value(name)));
              && ok == (needed ==> outcome.Written?)
              && touched == (needed && ok)
              && (!needed ==> text == old(text))
      ensures !touched && ok ==> text == old(text)
      ensures ok || outcome.OwnershipFailed? ==>
                forall n :: n != "" ==>
                  Value(n) == if n in names && Needs(old(Value(n))) then Some(PLACEHOLDER) else old(Value(n))
      ensures ok ==> forall n :: n in names && n != "" ==> Value(n).Some? && Value(n).value != ""
      ensures ok || outcome.OwnershipFailed? ==>
                forall n :: n != "" && old(Value(n)).Some? && old(Value(n)).value != "" ==> Value(n) == old(Value(n))
      ensures !ok && outcome.OpenFailed? ==> text == old(text)
      ensures !ok && outcome.WriteFailed? ==>
                && text.Some?
                && text.value <= Render(Fill(old(LinesOf()), names))
                && (outcome.kept <= |Render(Fill(old(LinesOf()), names))| ==> |text.value| == outcome.kept)
                && forall n :: n != "" ==>
                     (Value(n) == (if n in names && Needs(old(Value(n))) then Some(PLACEHOLDER) else old(Value(n)))
                      <==> Needed(Filled(old(LinesOf()), names), n) <= |text.value|)
    {
      PlaceholderIsClean();
      hide Read, Parse, Render, Fill, ValidName, PLACEHOLDER, Needed, Filled;
      ghost var before := if text.None? then "" else text.value;
      if text.None? {
        MissingIsEmpty();
      }
      var lines := Load();
      var changed;
      lines, changed := FillPlaceholders(lines, names);
      forall n | n != "" ensures Lookup(Parse(before), n) == Value(n) {
        ReadIsLookup(before, n);
      }
      if !changed {
        return false, true;
      }
      var body := RenderLines(lines);
      forall n | n != ""
        ensures Read(body, n) == if n in names && Needs(Read(before, n)) then Some(PLACEHOLDER) else Read(before, n)
      {
        ReadAfterFill(before, names, n);
      }
      ok := WriteInPlace(body, outcome);
      touched := ok;
      if outcome.OpenFailed? {
        return;
      }
      ghost var k := |text.value|;
      assert text.value == body[..k];
      forall n | n != "" ensures Read(body[..k], n) == Read(body, n) <==> Needed(Filled(Parse(before), names), n) <= k {
        ReadAfterCut(before, names, k, n);
      }
    }
  }

  /** A placeholder run for one name, cut at once, loses the value of another. */
  lemma TruncationLosesASecret()
    ensures Read("A=s", "A") == Some("s") && Needs(Read("A=s", "B"))
    ensures Read(Render(Fill(Parse("A=s"), ["B"]))[..0], "A") == None
  {
    OneEntry();
    hide Read, Render, Fill, Parse;
    assert Render(Fill(Parse("A=s"), ["B"]))[..0] == "";
  }

  /** What a text of one line reads for a name. */
  lemma ReadOneLine(line: string, name: string)
    requires '\n' !in line && name != ""
    ensures Read(line, name) == if ParseLine(line).key == name then Some(Trim(ParseLine(line).value)) else None
  {
    ParseOnly(line);
    hide Parse, ParseLine, ParseAll, Split, Trim, Read;
    ReadIsLookupAll(line, name);
  }

  lemma OneEntry()
    ensures ValidName("B") && Read("A=s", "A") == Some("s") && Read("A=s", "B") == None && Read("", "A") == None
  {
    EntryLine();
    EmptyLine();
    hide ParseLine, Trim, Read;
    ReadOneLine("A=s", "A");
    ReadOneLine("A=s", "B");
    ReadOneLine("", "A");
  }

  lemma EntryLine()
    ensures ParseLine("A=s") == EnvLine("A", "s", "") && Trim("s") == "s"
  {
    var l := EnvLine("A", "s", "");
    TrimClean("s");
    assert LineText(l) == "A=s" && WellFormed(l);
    hide ParseLine;
    ParseLineText(l);
  }

  /* ---- Reading, character by character ---- */

  /** Blanks, tabs and carriage returns. */
  ghost predicate Padding(s: string) {
    forall i :: 0 <= i < |s| ==> s[i] == ' ' || s[i] == '\t' || s[i] == '\r'
  }

  /** Printable ASCII without the blank, and letters beyond it. */
  ghost predicate Visible(s: string) {
    forall i :: 0 <= i < |s| ==> '!' <= s[i] <= '~' || '\U{A1}' <= s[i] < '\U{1680}'
  }

  /** What may be the name of a variable in a file. */
  ghost predicate PlainName(name: string) {
    name != "" && Visible(name) && '=' !in name && name[0] != '#'
  }

  lemma {:induction false} PaddingGoes(a: string, s: string, b: string)
    requires Padding(a) && Visible(s) && Padding(b)
    ensures Trim(a + s + b) == s
    ensures '\n' !in a + s + b && ('=' !in s ==> '=' !in a + s + b)
  {
    TrimUnique(a, s, b);
    assert '\n' !in a && '\n' !in s && '\n' !in b && '=' !in a && '=' !in b;
  }

  lemma {:induction false} EntryIsParsed(left: string, name: string, right: string)
    requires Trim(left) == name && PlainName(name) && '=' !in left && '\n' !in left && '\n' !in right
    ensures ParseLine(left + "=" + right) == EnvLine(name, right, "")
  {
    var line := left + "=" + right;
    hide Trim;
    assert line == left + ("=" + right);
    KeyIsFirst(left, "=" + right);
    IndexOfFirst(left, '=', right);
    hide IndexOf;
    assert line[..|left|] == left && line[|left| + 1..] == right;
  }

  /** An entry with blanks around the name and around the value is that name with that value. */
  lemma {:induction false} EntryIsRead(p0: string, name: string, p1: string, p2: string, value: string, p3: string)
    requires Padding(p0) && Padding(p1) && Padding(p2) && Padding(p3) && PlainName(name) && Visible(value)
    ensures var line := (p0 + name + p1) + "=" + (p2 + value + p3);
            && ParseLine(line) == EnvLine(name, p2 + value + p3, "")
            && Read(line, name) == Some(value)
  {
    var left, right := p0 + name + p1, p2 + value + p3;
    hide Trim, ParseLine, Read, Padding, Visible;
    PaddingGoes(p0, name, p1);
    PaddingGoes(p2, value, p3);
    EntryIsParsed(left, name, right);
    ReadOneLine(left + "=" + right, name);
  }

  /** The first entry of a name decides, and entries of other names do not matter. */
  lemma {:induction false} FirstEntryDecides(line: string, rest: string, name: string, value: string, other: string)
    requires '\n' !in line && name != "" && other != "" && other != name
    requires ParseLine(line).key == name && Read(line, name) == Some(value)
    ensures Read(line + "\n" + rest, name) == Some(value)
    ensures Read(line + "\n" + rest, other) == Read(rest, other)
  {
    ReadOneLine(line, name);
    ParseFirst(line, rest);
    hide ParseLine, Read, ParseAll, Split, Trim;
    ReadIsLookupAll(line + "\n" + rest, name);
    ReadIsLookupAll(line + "\n" + rest, other);
    ReadIsLookupAll(rest, other);
    var parsed := ParseAll(Split(line + "\n" + rest));
    assert parsed[1..] == ParseAll(Split(rest));
  }

  /** A plain value is read as it was written. */
  lemma {:induction false} PlainValueIsKept(text: string, name: string, value: string)
    requires PlainName(name) && Visible(value)
    ensures ValidName(name) && Read(Render(Upsert(Parse(text), name, value)), name) == Some(value)
  {
    TrimClean(value);
    hide Read, Render, Parse, Upsert, Trim;
    ReadAfterWrite(text, name, value, name);
  }

  /** A line that starts with a hash sign after its blanks holds no value. */
  lemma {:induction false} HashIsComment(p: string, rest: string, name: string)
    requires Padding(p) && '\n' !in rest && name != ""
    ensures ParseLine(p + "#" + rest) == EnvLine("", "", p + "#" + rest) && Read(p + "#" + rest, name) == None
  {
    var line := p + "#" + rest;
    TrimPadded(p, "#" + rest, []);
    assert line == p + ("#" + rest) + [];
    FirstChar("#" + rest);
    hide Trim;
    assert ParseLine(line) == EnvLine("", "", line);
    hide ParseLine, Read;
    ReadOneLine(line, name);
  }
}
