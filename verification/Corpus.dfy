/** The corpus case file: sections under delimiter lines, read and written back. */
module Corpus {
  import opened Common
  import opened Tokens

  datatype Name = Header | Source | Html | Markdown | Ast | SourceDocument | Diagnostics | End

  function Spelled(n: Name): string {
    match n
    case Header => "case"
    case Source => "source"
    case Html => "html"
    case Markdown => "markdown"
    case Ast => "ast"
    case SourceDocument => "source-document"
    case Diagnostics => "diagnostics"
    case End => "end"
  }

  function NameOf(s: string): Option<Name> {
    if s == "case" then Some(Header)
    else if s == "source" then Some(Source)
    else if s == "html" then Some(Html)
    else if s == "markdown" then Some(Markdown)
    else if s == "ast" then Some(Ast)
    else if s == "source-document" then Some(SourceDocument)
    else if s == "diagnostics" then Some(Diagnostics)
    else if s == "end" then Some(End)
    else None
  }

  // ---- Lines ----

  /** Lines with one more character in front. */
  function Prefixed(c: char, lines: seq<string>): seq<string> {
    if c == '\n' then ["\n"] + lines
    else if lines == [] then [[c]]
    else [[c] + lines[0]] + lines[1..]
  }

  /** `split_inclusive('\n')`: every line with its newline, the last perhaps without. */
  function Lines(text: string): seq<string> {
    if text == "" then [] else Prefixed(text[0], Lines(text[1..]))
  }

  function TrimEol(s: string): string {
    if s != "" && (s[|s| - 1] == '\r' || s[|s| - 1] == '\n') then TrimEol(s[..|s| - 1]) else s
  }

  /** Which section a line begins, if it is the marker, one of the eight names, and nothing more but its ending. */
  function Delimiter(line: string): Option<Name> {
    if "%%% " <= line then NameOf(TrimEol(line[4..])) else None
  }

  function Marker(n: Name): string {
    "%%% " + Spelled(n) + "\n"
  }

  /** Ends where a line does. */
  predicate EndsLine(text: string) {
    text == "" || text[|text| - 1] == '\n'
  }

  lemma PrefixedAppend(c: char, a: seq<string>, b: seq<string>)
    requires a != [] || c == '\n'
    ensures Prefixed(c, a + b) == Prefixed(c, a) + b
  {
    if c != '\n' {
      assert (a + b)[1..] == a[1..] + b;
    }
  }

  lemma {:induction false} LinesAppend(a: string, b: string)
    requires EndsLine(a)
    ensures Lines(a + b) == Lines(a) + Lines(b)
  {
    if a == "" {
      assert a + b == b;
    } else {
      assert (a + b)[1..] == a[1..] + b;
      LinesAppend(a[1..], b);
      PrefixedAppend(a[0], Lines(a[1..]), Lines(b));
    }
  }

  lemma {:induction false} OneLine(s: string)
    requires '\n' !in s
    ensures Lines(s + "\n") == [s + "\n"]
  {
    if s == "" {
      assert s + "\n" == "\n" && "\n"[1..] == "";
    } else {
      assert (s + "\n")[1..] == s[1..] + "\n";
      OneLine(s[1..]);
      assert [s[0]] + (s[1..] + "\n") == s + "\n";
    }
  }

  /** Lines are whole: each ends its line but perhaps the last, and none is cut again. */
  ghost predicate Whole(lines: seq<string>) {
    lines == [] ||
    (Lines(lines[0]) == [lines[0]] && (|lines| > 1 ==> EndsLine(lines[0])) && Whole(lines[1..]))
  }

  lemma {:induction false} LinesAreWhole(text: string)
    ensures Whole(Lines(text)) && Concat(Lines(text)) == text
  {
    if text != "" {
      LinesAreWhole(text[1..]);
      var rest := Lines(text[1..]);
      if text[0] == '\n' {
        assert (["\n"] + rest)[1..] == rest;
        assert Lines("\n") == ["\n"] by { assert "\n"[1..] == ""; }
      } else if rest == [] {
        assert Concat(rest) == "" && text == [text[0]] && [[text[0]]][1..] == [];
      } else {
        var first := [text[0]] + rest[0];
        assert first[1..] == rest[0];
        assert ([first] + rest[1..])[1..] == rest[1..];
        assert first[|first| - 1] == rest[0][|rest[0]| - 1];
      }
    }
  }

  // ---- Reading ----

  /** What tells a delimiter line from any other. */
  type Cut = string -> Option<Name>

  datatype ParseError = Early | Repeated(name: Name) | NoCase | BadHeader | NoSource | BadJson(section: Name)

  datatype Scan =
    | Scanning(sections: map<Name, string>, current: Option<Name>, body: string)
    | Ended(sections: map<Name, string>)
    | Failed(error: ParseError)
  {
    /** One more line. */
    function Step(line: string, cut: Cut): Scan {
      if !Scanning? then this
      else if cut(line).Some? then
        if current.Some? && current.value in sections then Failed(Repeated(current.value))
        else
          var done := if current.Some? then sections[current.value := body] else sections;
          if cut(line).value == End then Ended(done) else Scanning(done, cut(line), "")
      else if current.Some? then this.(body := body + line)
      else if IsBlank(line) then this
      else Failed(Early)
    }

    /** The sections at the end of the text: the last one is put in without a check. */
    function Finish(): Result<map<Name, string>, ParseError> {
      match this
      case Scanning(sections, current, body) => Ok(if current.Some? then sections[current.value := body] else sections)
      case Ended(sections) => Ok(sections)
      case Failed(error) => Err(error)
    }
  }

  function ScanFrom(s: Scan, lines: seq<string>, cut: Cut): Scan
    decreases |lines|
  {
    if lines == [] then s else ScanFrom(s.Step(lines[0], cut), lines[1..], cut)
  }

  const START := Scanning(map[], None, "")

  function SectionsOf(text: string, cut: Cut): Result<map<Name, string>, ParseError> {
    ScanFrom(START, Lines(text), cut).Finish()
  }

  /** A JSON reader and writer, as opaque as the library the source calls. */
  datatype Codec<!T> = Codec(encode: T -> string, decode: string -> Option<T>)

  /** What is asked of one: it reads back what it wrote, and nothing it writes looks like a delimiter line. */
  ghost predicate Lawful<T(!new)>(c: Codec<T>, cut: Cut) {
    forall v: T :: c.decode(c.encode(v) + "\n") == Some(v) && IsFree(c.encode(v) + "\n", cut)
  }

  datatype Json<!H, !V, !D> = Json(header: Codec<H>, value: Codec<V>, diagnostics: Codec<D>)

  ghost predicate AllLawful<H(!new), V(!new), D(!new)>(j: Json<H, V, D>, cut: Cut) {
    Lawful(j.header, cut) && Lawful(j.value, cut) && Lawful(j.diagnostics, cut)
  }

  datatype Case<H, V, D> = Case(header: H, source: string, html: Option<string>, markdown: Option<string>,
                                ast: Option<V>, sourceDocument: Option<V>, diagnostics: Option<D>)

  function Get(sections: map<Name, string>, n: Name): Option<string> {
    if n in sections then Some(sections[n]) else None
  }

  function Decoded<T>(c: Codec<T>, text: Option<string>, section: Name): Result<Option<T>, ParseError> {
    if text.None? then Ok(None)
    else
      var v := c.decode(text.value);
      if v.Some? then Ok(v) else Err(BadJson(section))
  }

  function CaseOf<H, V, D>(sections: map<Name, string>, j: Json<H, V, D>): Result<Case<H, V, D>, ParseError> {
    if Header !in sections then Err(NoCase)
    else
      var header := j.header.decode(sections[Header]);
      if header.None? then Err(BadHeader)
      else if Source !in sections then Err(NoSource)
      else
        var ast := Decoded(j.value, Get(sections, Ast), Ast);
        var document := Decoded(j.value, Get(sections, SourceDocument), SourceDocument);
        var diagnostics := Decoded(j.diagnostics, Get(sections, Diagnostics), Diagnostics);
        if ast.Err? then Err(ast.error)
        else if document.Err? then Err(document.error)
        else if diagnostics.Err? then Err(diagnostics.error)
        else Ok(Case(header.value, sections[Source], Get(sections, Html), Get(sections, Markdown),
                     ast.value, document.value, diagnostics.value))
  }

  function ParseOf<H, V, D>(text: string, j: Json<H, V, D>): Result<Case<H, V, D>, ParseError> {
    var sections := SectionsOf(text, Delimiter);
    if sections.Ok? then CaseOf(sections.value, j) else Err(sections.error)
  }

  /** Reads the sections, line by line. */
  method ReadSections(text: string, cut: Cut) returns (result: Result<map<Name, string>, ParseError>)
    ensures result == SectionsOf(text, cut)
  {
    var sections: map<Name, string>, current: Option<Name>, body: string := map[], None, "";
    var lines := Lines(text);
    var i := 0;
    while i < |lines|
      invariant 0 <= i <= |lines|
      invariant ScanFrom(START, lines, cut) == ScanFrom(Scanning(sections, current, body), lines[i..], cut)
    {
      var line := lines[i];
      assert lines[i..][1..] == lines[i + 1..];
      i := i + 1;
      var name := cut(line);
      if name.Some? {
        var previous := current;
        current := name;
        if previous.Some? {
          var repeated := previous.value in sections;
          sections, body := sections[previous.value := body], "";
          if repeated {
            StaysFailed(Repeated(previous.value), lines[i..], cut);
            return Err(Repeated(previous.value));
          }
        }
        body := "";
        if name.value == End {
          StaysEnded(sections, lines[i..], cut);
          return Ok(sections);
        }
        continue;
      }
      if current.Some? {
        body := body + line;
      } else if !IsBlank(line) {
        StaysFailed(Early, lines[i..], cut);
        return Err(Early);
      }
    }
    assert lines[i..] == [];
    if current.Some? {
      sections := sections[current.value := body];
    }
    result := Ok(sections);
  }

  lemma {:induction false} StaysFailed(e: ParseError, lines: seq<string>, cut: Cut)
    ensures ScanFrom(Failed(e), lines, cut) == Failed(e)
    decreases |lines|
  {
    if lines != [] {
      StaysFailed(e, lines[1..], cut);
    }
  }

  lemma {:induction false} StaysEnded(sections: map<Name, string>, lines: seq<string>, cut: Cut)
    ensures ScanFrom(Ended(sections), lines, cut) == Ended(sections)
    decreases |lines|
  {
    if lines != [] {
      StaysEnded(sections, lines[1..], cut);
    }
  }

  // ---- Writing ----

  function Terminated(body: string): (r: string)
    ensures EndsLine(r)
  {
    if EndsLine(body) then body else body + "\n"
  }

  datatype Section = Section(name: Name, body: string)

  /** Sections as text: each one's marker, then its body. */
  function Rendered(parts: seq<Section>, marker: Name -> string): string {
    if parts == [] then ""
    else
      var last := parts[|parts| - 1];
      Rendered(parts[..|parts| - 1], marker) + (marker(last.name) + last.body)
  }

  function TextPart(n: Name, body: Option<string>): seq<Section> {
    if body.Some? then [Section(n, Terminated(body.value))] else []
  }

  function JsonPart<T>(c: Codec<T>, n: Name, v: Option<T>): seq<Section> {
    if v.Some? then [Section(n, c.encode(v.value) + "\n")] else []
  }

  function PartsOf<H, V, D>(c: Case<H, V, D>, j: Json<H, V, D>): seq<Section> {
    JsonPart(j.header, Header, Some(c.header)) + TextPart(Source, Some(c.source))
    + TextPart(Html, c.html) + TextPart(Markdown, c.markdown)
    + JsonPart(j.value, Ast, c.ast) + JsonPart(j.value, SourceDocument, c.sourceDocument)
    + JsonPart(j.diagnostics, Diagnostics, c.diagnostics)
  }

  function WriteOf<H, V, D>(c: Case<H, V, D>, j: Json<H, V, D>): string {
    Rendered(PartsOf(c, j), Marker) + Marker(End)
  }

  lemma RenderedPush(parts: seq<Section>, part: Section, marker: Name -> string)
    ensures Rendered(parts + [part], marker) == Rendered(parts, marker) + marker(part.name) + part.body
  {
    assert (parts + [part])[..|parts|] == parts;
    assert Rendered(parts, marker) + (marker(part.name) + part.body)
           == Rendered(parts, marker) + marker(part.name) + part.body;
  }

  method EnsureNewline(out: string) returns (r: string)
    ensures r == Terminated(out)
  {
    r := out;
    if out != "" && out[|out| - 1] != '\n' {
      r := r + "\n";
    }
  }

  lemma TerminatedAfter(out: string, body: string)
    requires out != "" && EndsLine(out)
    ensures Terminated(out + body) == out + Terminated(body)
  {
    if body == "" {
      assert out + body == out;
    } else {
      assert (out + body)[|out + body| - 1] == body[|body| - 1];
    }
  }

  /** Appends a text section. */
  method WriteText(out: string, line: string, n: Name, body: Option<string>, ghost parts: seq<Section>, ghost marker: Name -> string)
    returns (r: string)
    requires out == Rendered(parts, marker) && line == marker(n) && line != "" && EndsLine(line)
    ensures r == Rendered(parts + TextPart(n, body), marker)
  {
    r := out;
    if body.Some? {
      RenderedPush(parts, Section(n, Terminated(body.value)), marker);
      r := r + line;
      assert r[|r| - 1] == line[|line| - 1];
      TerminatedAfter(r, body.value);
      r := r + body.value;
      r := EnsureNewline(r);
    } else {
      assert parts + [] == parts;
    }
  }

  /** Appends a JSON section. */
  method WriteJson<T>(out: string, line: string, c: Codec<T>, n: Name, v: Option<T>, ghost parts: seq<Section>,
                      ghost marker: Name -> string)
    returns (r: string)
    requires out == Rendered(parts, marker) && line == marker(n)
    ensures r == Rendered(parts + JsonPart(c, n, v), marker)
  {
    r := out;
    if v.Some? {
      RenderedPush(parts, Section(n, c.encode(v.value) + "\n"), marker);
      r := r + line;
      r := r + c.encode(v.value);
      r := r + "\n";
      assert out + line + c.encode(v.value) + "\n" == out + line + (c.encode(v.value) + "\n");
    } else {
      assert parts + [] == parts;
    }
  }

  method Write<H, V, D>(c: Case<H, V, D>, j: Json<H, V, D>) returns (out: string)
    ensures out == WriteOf(c, j)
  {
    out := WriteJson("", Marker(Header), j.header, Header, Some(c.header), [], Marker);
    ghost var parts := [] + JsonPart(j.header, Header, Some(c.header));
    assert parts == JsonPart(j.header, Header, Some(c.header));
    out := WriteText(out, Marker(Source), Source, Some(c.source), parts, Marker);
    parts := parts + TextPart(Source, Some(c.source));
    out := WriteText(out, Marker(Html), Html, c.html, parts, Marker);
    parts := parts + TextPart(Html, c.html);
    out := WriteText(out, Marker(Markdown), Markdown, c.markdown, parts, Marker);
    parts := parts + TextPart(Markdown, c.markdown);
    out := WriteJson(out, Marker(Ast), j.value, Ast, c.ast, parts, Marker);
    parts := parts + JsonPart(j.value, Ast, c.ast);
    out := WriteJson(out, Marker(SourceDocument), j.value, SourceDocument, c.sourceDocument, parts, Marker);
    parts := parts + JsonPart(j.value, SourceDocument, c.sourceDocument);
    out := WriteJson(out, Marker(Diagnostics), j.diagnostics, Diagnostics, c.diagnostics, parts, Marker);
    out := out + Marker(End);
  }

  // ---- Delimiter lines in bodies ----

  ghost predicate AreFree(lines: seq<string>, cut: Cut) {
    forall l <- lines :: cut(l).None?
  }

  /** No line of the text is a delimiter. */
  ghost predicate IsFree(text: string, cut: Cut) {
    AreFree(Lines(text), cut)
  }

  lemma TrimTerminated(s: string)
    ensures TrimEol(s + "\n") == TrimEol(s)
  {
    assert (s + "\n")[..|s|] == s;
  }

  /** What writing and reading agree on: a marker is one line, and names its section; a line ending changes nothing. */
  ghost predicate Agree(cut: Cut, marker: Name -> string) {
    && (forall n :: marker(n) != "" && EndsLine(marker(n)) && Lines(marker(n)) == [marker(n)] && cut(marker(n)) == Some(n))
    && (forall line :: cut(line + "\n") == cut(line))
  }

  lemma SpelledIsNamed(n: Name)
    ensures NameOf(Spelled(n)) == Some(n) && TrimEol(Spelled(n)) == Spelled(n) && '\n' !in Spelled(n)
  {
  }

  lemma MarkerDelimits(n: Name)
    ensures Marker(n) != "" && EndsLine(Marker(n)) && Lines(Marker(n)) == [Marker(n)] && Delimiter(Marker(n)) == Some(n)
  {
    SpelledIsNamed(n);
    MarkedLine("%%% ", Spelled(n));
    OneLine("%%% " + Spelled(n));
    TrimTerminated(Spelled(n));
  }

  lemma MarkedLine(prefix: string, name: string)
    ensures (prefix + name + "\n")[|prefix|..] == name + "\n" && prefix <= prefix + name + "\n"
  {
  }

  lemma TerminatedDelimits(line: string)
    ensures Delimiter(line + "\n") == Delimiter(line)
  {
    if |line| >= 4 {
      assert (line + "\n")[..4] == line[..4];
      assert (line + "\n")[4..] == line[4..] + "\n";
      TrimTerminated(line[4..]);
    } else if |line| == 3 {
      assert (line + "\n")[3] == '\n';
    }
  }

  lemma DelimitersAgree()
    ensures Agree(Delimiter, Marker)
  {
    forall n
      ensures Marker(n) != "" && EndsLine(Marker(n)) && Lines(Marker(n)) == [Marker(n)] && Delimiter(Marker(n)) == Some(n)
    {
      MarkerDelimits(n);
    }
    forall line
      ensures Delimiter(line + "\n") == Delimiter(line)
    {
      TerminatedDelimits(line);
    }
  }

  function WithNewline(lines: seq<string>): seq<string>
    requires lines != []
  {
    lines[..|lines| - 1] + [lines[|lines| - 1] + "\n"]
  }

  lemma PrefixedWithNewline(c: char, lines: seq<string>)
    requires lines != []
    ensures Prefixed(c, lines) != [] && Prefixed(c, WithNewline(lines)) == WithNewline(Prefixed(c, lines))
  {
    if c != '\n' && |lines| == 1 {
      assert [c] + (lines[0] + "\n") == [c] + lines[0] + "\n";
    }
  }

  lemma {:induction false} LastLineTerminated(text: string)
    requires !EndsLine(text)
    ensures Lines(text) != [] && Lines(text + "\n") == WithNewline(Lines(text))
  {
    assert (text + "\n")[1..] == text[1..] + "\n";
    assert Lines(text) == Prefixed(text[0], Lines(text[1..]));
    assert Lines(text + "\n") == Prefixed(text[0], Lines(text[1..] + "\n"));
    if |text| == 1 {
      assert text[1..] == "" && text[1..] + "\n" == "\n" && "\n"[1..] == "";
    } else {
      LastLineTerminated(text[1..]);
      PrefixedWithNewline(text[0], Lines(text[1..]));
    }
  }

  lemma FreeUpToLast(lines: seq<string>, cut: Cut)
    requires lines != []
    ensures AreFree(lines, cut) <==> AreFree(lines[..|lines| - 1], cut) && cut(lines[|lines| - 1]).None?
  {
    assert lines == lines[..|lines| - 1] + [lines[|lines| - 1]];
  }

  /** A newline at the end makes no line a delimiter that was none, and unmakes none that was. */
  lemma TerminatedIsFree(text: string, cut: Cut, marker: Name -> string)
    requires Agree(cut, marker)
    ensures IsFree(Terminated(text), cut) <==> IsFree(text, cut)
  {
    if !EndsLine(text) {
      LastLineTerminated(text);
      var lines := Lines(text);
      assert cut(lines[|lines| - 1] + "\n") == cut(lines[|lines| - 1]);
      FreeUpToLast(lines, cut);
      FreeUpToLast(WithNewline(lines), cut);
      assert WithNewline(lines)[..|lines| - 1] == lines[..|lines| - 1];
    }
  }

  // ---- Reading what was written ----

  lemma {:induction false} ScanAppend(s: Scan, a: seq<string>, b: seq<string>, cut: Cut)
    ensures ScanFrom(s, a + b, cut) == ScanFrom(ScanFrom(s, a, cut), b, cut)
    decreases |a|
  {
    if a == [] {
      assert a + b == b;
    } else {
      assert (a + b)[1..] == a[1..] + b;
      ScanAppend(s.Step(a[0], cut), a[1..], b, cut);
    }
  }

  lemma {:induction false} ScanBody(sections: map<Name, string>, n: Name, body: string, lines: seq<string>, cut: Cut)
    requires AreFree(lines, cut)
    ensures ScanFrom(Scanning(sections, Some(n), body), lines, cut) == Scanning(sections, Some(n), body + Concat(lines))
    decreases |lines|
  {
    if lines == [] {
      assert body + Concat(lines) == body;
    } else {
      assert cut(lines[0]).None?;
      ScanBody(sections, n, body + lines[0], lines[1..], cut);
      assert body + lines[0] + Concat(lines[1..]) == body + Concat(lines);
    }
  }

  function Gathered(parts: seq<Section>): map<Name, string> {
    if parts == [] then map[]
    else
      var last := parts[|parts| - 1];
      Gathered(parts[..|parts| - 1])[last.name := last.body]
  }

  /** Every section's name is its own. */
  predicate Distinct(parts: seq<Section>) {
    parts == []
    || (Distinct(parts[..|parts| - 1]) && parts[|parts| - 1].name !in Gathered(parts[..|parts| - 1]))
  }

  ghost predicate Readable(parts: seq<Section>, cut: Cut) {
    forall p <- parts :: p.name != End && EndsLine(p.body) && IsFree(p.body, cut)
  }

  lemma EndsLineAppend(a: string, b: string)
    requires EndsLine(a) && EndsLine(b)
    ensures EndsLine(a + b)
  {
    if b == "" {
      assert a + b == a;
    } else {
      assert (a + b)[|a + b| - 1] == b[|b| - 1];
    }
  }

  /** One more section, whatever came before. */
  lemma ScanSection(s: Scan, n: Name, body: string, cut: Cut, marker: Name -> string)
    requires Agree(cut, marker)
    ensures ScanFrom(s, Lines(marker(n) + body), cut) == ScanFrom(s.Step(marker(n), cut), Lines(body), cut)
  {
    LinesAppend(marker(n), body);
    assert ([marker(n)] + Lines(body))[1..] == Lines(body);
  }

  lemma {:induction false} RenderedEndsLine(parts: seq<Section>, cut: Cut, marker: Name -> string)
    requires Readable(parts, cut) && Agree(cut, marker)
    ensures EndsLine(Rendered(parts, marker))
  {
    if parts != [] {
      var init, last := parts[..|parts| - 1], parts[|parts| - 1];
      assert last in parts && forall p <- init :: p in parts;
      RenderedEndsLine(init, cut, marker);
      EndsLineAppend(marker(last.name), last.body);
      EndsLineAppend(Rendered(init, marker), marker(last.name) + last.body);
    }
  }

  /** Where the reader stands after sections: the last one open, or stopped at the first to close a repeated name. */
  ghost predicate StandsAfter(parts: seq<Section>, s: Scan)
  {
    if parts == [] then s == START
    else
      var init, last := parts[..|parts| - 1], parts[|parts| - 1];
      if Distinct(init) then s == Scanning(Gathered(init), Some(last.name), last.body)
      else s.Failed? && s.error.Repeated?
  }

  lemma StandsNext(parts: seq<Section>, s: Scan, last: Section, cut: Cut, marker: Name -> string)
    requires StandsAfter(parts, s) && Agree(cut, marker)
    requires last.name != End && IsFree(last.body, cut)
    ensures StandsAfter(parts + [last], ScanFrom(s.Step(marker(last.name), cut), Lines(last.body), cut))
  {
    assert (parts + [last])[..|parts|] == parts;
    LinesAreWhole(last.body);
    var next := s.Step(marker(last.name), cut);
    if Distinct(parts) {
      ScanBody(Gathered(parts), last.name, "", Lines(last.body), cut);
      assert "" + last.body == last.body;
    } else {
      StaysFailed(next.error, Lines(last.body), cut);
    }
  }

  lemma {:induction false} ScanParts(parts: seq<Section>, cut: Cut, marker: Name -> string)
    requires Readable(parts, cut) && Agree(cut, marker)
    ensures StandsAfter(parts, ScanFrom(START, Lines(Rendered(parts, marker)), cut))
  {
    if parts != [] {
      var init, last := parts[..|parts| - 1], parts[|parts| - 1];
      assert parts == init + [last];
      assert last in parts && forall p <- init :: p in parts;
      ScanParts(init, cut, marker);
      RenderedEndsLine(init, cut, marker);
      var tail := marker(last.name) + last.body;
      LinesAppend(Rendered(init, marker), tail);
      ScanAppend(START, Lines(Rendered(init, marker)), Lines(tail), cut);
      var before := ScanFrom(START, Lines(Rendered(init, marker)), cut);
      ScanSection(before, last.name, last.body, cut, marker);
      StandsNext(init, before, last, cut, marker);
    }
  }

  /** Closed by the end marker, a file is read exactly when no section is repeated. */
  lemma {:induction false} ReadClosed(parts: seq<Section>, cut: Cut, marker: Name -> string)
    requires Readable(parts, cut) && Agree(cut, marker) && parts != []
    ensures var result := SectionsOf(Rendered(parts, marker) + marker(End), cut);
            if Distinct(parts) then result == Ok(Gathered(parts)) else result.Err? && result.error.Repeated?
  {
    ScanParts(parts, cut, marker);
    RenderedEndsLine(parts, cut, marker);
    LinesAppend(Rendered(parts, marker), marker(End));
    var before := ScanFrom(START, Lines(Rendered(parts, marker)), cut);
    ScanAppend(START, Lines(Rendered(parts, marker)), [marker(End)], cut);
    assert [marker(End)][1..] == [];
    assert ScanFrom(before, [marker(End)], cut) == before.Step(marker(End), cut);
  }

  /** Left open, it is read even when its last section repeats one before: the later body silently wins. */
  lemma {:induction false} ReadOpen(parts: seq<Section>, cut: Cut, marker: Name -> string)
    requires Readable(parts, cut) && Agree(cut, marker) && parts != []
    ensures var result := SectionsOf(Rendered(parts, marker), cut);
            if Distinct(parts[..|parts| - 1]) then result == Ok(Gathered(parts)) else result.Err? && result.error.Repeated?
  {
    ScanParts(parts, cut, marker);
  }

  // ---- Cases ----

  ghost predicate Below(parts: seq<Section>, bound: nat) {
    forall p <- parts :: Rank(p.name) < bound
  }

  function Rank(n: Name): nat {
    match n
    case Header => 0
    case Source => 1
    case Html => 2
    case Markdown => 3
    case Ast => 4
    case SourceDocument => 5
    case Diagnostics => 6
    case End => 7
  }

  lemma {:induction false} GatheredHas(parts: seq<Section>, n: Name)
    ensures n in Gathered(parts) <==> exists p <- parts :: p.name == n
  {
    if parts != [] {
      var init, last := parts[..|parts| - 1], parts[|parts| - 1];
      assert parts == init + [last];
      GatheredHas(init, n);
    }
  }

  /** What writing a case has come to: names in order, each body readable, and what each name holds so far. */
  ghost predicate Written(parts: seq<Section>, cut: Cut, bound: nat) {
    Distinct(parts) && Below(parts, bound) && Readable(parts, cut)
  }

  /** A part as it is written for a name, present or not. */
  ghost predicate PartFits(part: seq<Section>, n: Name, cut: Cut) {
    part == [] || (|part| == 1 && part[0].name == n && EndsLine(part[0].body) && IsFree(part[0].body, cut))
  }

  function PutBody(m: map<Name, string>, n: Name, part: seq<Section>): map<Name, string> {
    if part == [] then m else m[n := part[0].body]
  }

  /** One more part, present or not, of a later name. */
  lemma AddPart(parts: seq<Section>, n: Name, part: seq<Section>, cut: Cut, bound: nat)
    requires Written(parts, cut, bound) && bound <= Rank(n) < 7
    requires PartFits(part, n, cut)
    ensures Written(parts + part, cut, Rank(n) + 1)
    ensures Gathered(parts + part) == PutBody(Gathered(parts), n, part)
  {
    if part == [] {
      assert parts + part == parts;
    } else {
      AbsentAbove(parts, n, bound);
      assert part == [part[0]];
      PushReadable(parts, part[0], cut, bound);
      PushDistinct(parts, part[0]);
      PushGathered(parts, part[0]);
    }
  }

  lemma AbsentAbove(parts: seq<Section>, n: Name, bound: nat)
    requires Below(parts, bound) && bound <= Rank(n)
    ensures n !in Gathered(parts)
  {
    GatheredHas(parts, n);
  }

  lemma PushReadable(parts: seq<Section>, part: Section, cut: Cut, bound: nat)
    requires Readable(parts, cut) && Below(parts, bound) && bound <= Rank(part.name) < 7
    requires EndsLine(part.body) && IsFree(part.body, cut)
    ensures Readable(parts + [part], cut) && Below(parts + [part], Rank(part.name) + 1)
  {
  }

  lemma PushDistinct(parts: seq<Section>, part: Section)
    requires Distinct(parts) && part.name !in Gathered(parts)
    ensures Distinct(parts + [part])
  {
    assert (parts + [part])[..|parts|] == parts;
  }

  lemma PushGathered(parts: seq<Section>, part: Section)
    ensures Gathered(parts + [part]) == Gathered(parts)[part.name := part.body]
  {
    assert (parts + [part])[..|parts|] == parts;
  }

  /** A case as it reads back: every text section ends its last line. */
  function Closed<H, V, D>(c: Case<H, V, D>): Case<H, V, D> {
    c.(source := Terminated(c.source),
       html := if c.html.Some? then Some(Terminated(c.html.value)) else None,
       markdown := if c.markdown.Some? then Some(Terminated(c.markdown.value)) else None)
  }

  /** No text section of the case holds a delimiter line. */
  ghost predicate IsClean<H, V, D>(c: Case<H, V, D>, cut: Cut) {
    && IsFree(c.source, cut)
    && (c.html.Some? ==> IsFree(c.html.value, cut))
    && (c.markdown.Some? ==> IsFree(c.markdown.value, cut))
  }

  function BodyOf(part: seq<Section>): Option<string> {
    if part == [] then None else Some(part[0].body)
  }

  lemma TextPartIsReadable(n: Name, body: Option<string>, cut: Cut, marker: Name -> string)
    requires Agree(cut, marker) && (body.Some? ==> IsFree(body.value, cut))
    ensures var part := TextPart(n, body);
            PartFits(part, n, cut)
  {
    if body.Some? {
      TerminatedIsFree(body.value, cut, marker);
    }
  }

  lemma JsonPartIsReadable<T(!new)>(c: Codec<T>, n: Name, v: Option<T>, cut: Cut)
    requires Lawful(c, cut)
    ensures var part := JsonPart(c, n, v);
            PartFits(part, n, cut)
  {
    if v.Some? {
      assert IsFree(c.encode(v.value) + "\n", cut);
    }
  }

  /** The sections a case is written as, put together again. */
  function SectionsFor<H, V, D>(c: Case<H, V, D>, j: Json<H, V, D>): map<Name, string> {
    var texts := PutBody(PutBody(PutBody(map[Header := j.header.encode(c.header) + "\n"],
                                         Source, TextPart(Source, Some(c.source))),
                                 Html, TextPart(Html, c.html)),
                         Markdown, TextPart(Markdown, c.markdown));
    PutBody(PutBody(PutBody(texts, Ast, JsonPart(j.value, Ast, c.ast)),
                    SourceDocument, JsonPart(j.value, SourceDocument, c.sourceDocument)),
            Diagnostics, JsonPart(j.diagnostics, Diagnostics, c.diagnostics))
  }

  lemma AddText(parts: seq<Section>, n: Name, body: Option<string>, cut: Cut, marker: Name -> string, bound: nat)
    requires Written(parts, cut, bound) && bound <= Rank(n) < 7
    requires Agree(cut, marker) && (body.Some? ==> IsFree(body.value, cut))
    ensures Written(parts + TextPart(n, body), cut, Rank(n) + 1)
    ensures Gathered(parts + TextPart(n, body)) == PutBody(Gathered(parts), n, TextPart(n, body))
  {
    TextPartIsReadable(n, body, cut, marker);
    AddPart(parts, n, TextPart(n, body), cut, bound);
  }

  lemma AddJson<T(!new)>(parts: seq<Section>, n: Name, c: Codec<T>, v: Option<T>, cut: Cut, bound: nat)
    requires Written(parts, cut, bound) && bound <= Rank(n) < 7 && Lawful(c, cut)
    ensures Written(parts + JsonPart(c, n, v), cut, Rank(n) + 1)
    ensures Gathered(parts + JsonPart(c, n, v)) == PutBody(Gathered(parts), n, JsonPart(c, n, v))
  {
    JsonPartIsReadable(c, n, v, cut);
    AddPart(parts, n, JsonPart(c, n, v), cut, bound);
  }

  lemma HeaderIsWritten<H(!new)>(header: H, c: Codec<H>, cut: Cut)
    requires Lawful(c, cut)
    ensures var part := JsonPart(c, Header, Some(header));
            Written(part, cut, 1) && part != [] && Gathered(part) == map[Header := c.encode(header) + "\n"]
  {
    var part := JsonPart(c, Header, Some(header));
    assert [] + part == part;
    AddJson([], Header, c, Some(header), cut, 0);
  }

  lemma TextsAreWritten<H(!new), V(!new), D(!new)>(c: Case<H, V, D>, j: Json<H, V, D>, cut: Cut, marker: Name -> string)
    requires Agree(cut, marker) && AllLawful(j, cut) && IsClean(c, cut)
    ensures var parts := JsonPart(j.header, Header, Some(c.header)) + TextPart(Source, Some(c.source))
                         + TextPart(Html, c.html) + TextPart(Markdown, c.markdown);
            && Written(parts, cut, 4) && parts != []
            && Gathered(parts) == PutBody(PutBody(PutBody(map[Header := j.header.encode(c.header) + "\n"],
                                                          Source, TextPart(Source, Some(c.source))),
                                                  Html, TextPart(Html, c.html)),
                                          Markdown, TextPart(Markdown, c.markdown))
  {
    HeaderIsWritten(c.header, j.header, cut);
    var p := JsonPart(j.header, Header, Some(c.header));
    AddText(p, Source, Some(c.source), cut, marker, 1);
    p := p + TextPart(Source, Some(c.source));
    AddText(p, Html, c.html, cut, marker, 2);
    p := p + TextPart(Html, c.html);
    AddText(p, Markdown, c.markdown, cut, marker, 3);
  }

  lemma JsonsAreWritten<V(!new), D(!new)>(parts: seq<Section>, ast: Option<V>, document: Option<V>, diagnostics: Option<D>,
                                          value: Codec<V>, found: Codec<D>, cut: Cut)
    requires Written(parts, cut, 4) && Lawful(value, cut) && Lawful(found, cut)
    ensures var a, b, d := JsonPart(value, Ast, ast), JsonPart(value, SourceDocument, document), JsonPart(found, Diagnostics, diagnostics);
            && Written(parts + a + b + d, cut, 7)
            && Gathered(parts + a + b + d)
               == PutBody(PutBody(PutBody(Gathered(parts), Ast, a), SourceDocument, b), Diagnostics, d)
  {
    AddJson(parts, Ast, value, ast, cut, 4);
    var p := parts + JsonPart(value, Ast, ast);
    AddJson(p, SourceDocument, value, document, cut, 5);
    p := p + JsonPart(value, SourceDocument, document);
    AddJson(p, Diagnostics, found, diagnostics, cut, 6);
  }

  lemma CaseIsWritten<H(!new), V(!new), D(!new)>(c: Case<H, V, D>, j: Json<H, V, D>, cut: Cut, marker: Name -> string)
    requires Agree(cut, marker) && AllLawful(j, cut) && IsClean(c, cut)
    ensures Written(PartsOf(c, j), cut, 7) && PartsOf(c, j) != [] && Gathered(PartsOf(c, j)) == SectionsFor(c, j)
  {
    TextsAreWritten(c, j, cut, marker);
    var p := JsonPart(j.header, Header, Some(c.header)) + TextPart(Source, Some(c.source))
             + TextPart(Html, c.html) + TextPart(Markdown, c.markdown);
    JsonsAreWritten(p, c.ast, c.sourceDocument, c.diagnostics, j.value, j.diagnostics, cut);
  }

  /** A JSON section decodes to what it was encoded from, present or not. */
  lemma JsonPartDecodes<T(!new)>(c: Codec<T>, n: Name, v: Option<T>, cut: Cut)
    requires Lawful(c, cut)
    ensures Decoded(c, BodyOf(JsonPart(c, n, v)), n) == Ok(v)
  {
    if v.Some? {
      assert c.decode(c.encode(v.value) + "\n") == Some(v.value);
    }
  }

  /** What each name holds among a case's sections. */
  lemma SectionsHold<H(!new), V(!new), D(!new)>(c: Case<H, V, D>, j: Json<H, V, D>)
    ensures var m := SectionsFor(c, j);
            && Get(m, Header) == Some(j.header.encode(c.header) + "\n") && Get(m, Source) == Some(Terminated(c.source))
            && Get(m, Html) == Closed(c).html && Get(m, Markdown) == Closed(c).markdown
            && Get(m, Ast) == BodyOf(JsonPart(j.value, Ast, c.ast))
            && Get(m, SourceDocument) == BodyOf(JsonPart(j.value, SourceDocument, c.sourceDocument))
            && Get(m, Diagnostics) == BodyOf(JsonPart(j.diagnostics, Diagnostics, c.diagnostics))
  {
  }

  lemma SectionsDecode<H(!new), V(!new), D(!new)>(c: Case<H, V, D>, j: Json<H, V, D>, cut: Cut)
    requires AllLawful(j, cut)
    ensures CaseOf(SectionsFor(c, j), j) == Ok(Closed(c))
  {
    SectionsHold(c, j);
    assert j.header.decode(j.header.encode(c.header) + "\n") == Some(c.header);
    JsonPartDecodes(j.value, Ast, c.ast, cut);
    JsonPartDecodes(j.value, SourceDocument, c.sourceDocument, cut);
    JsonPartDecodes(j.diagnostics, Diagnostics, c.diagnostics, cut);
  }

  lemma WrittenReadsBack<H(!new), V(!new), D(!new)>(c: Case<H, V, D>, j: Json<H, V, D>, cut: Cut, marker: Name -> string)
    requires Agree(cut, marker) && AllLawful(j, cut) && IsClean(c, cut)
    ensures SectionsOf(Rendered(PartsOf(c, j), marker) + marker(End), cut) == Ok(SectionsFor(c, j))
  {
    CaseIsWritten(c, j, cut, marker);
    ReadClosed(PartsOf(c, j), cut, marker);
  }

  // ---- What reading can produce ----

  ghost predicate AllFree(sections: map<Name, string>, cut: Cut) {
    forall n | n in sections :: IsFree(sections[n], cut)
  }

  ghost predicate ScanIsFree(s: Scan, cut: Cut) {
    match s
    case Scanning(sections, current, body) => AllFree(sections, cut) && IsFree(body, cut)
    case Ended(sections) => AllFree(sections, cut)
    case Failed(_) => true
  }

  lemma FreeAppend(body: string, line: string, cut: Cut)
    requires EndsLine(body) && IsFree(body, cut) && Lines(line) == [line] && cut(line).None?
    ensures IsFree(body + line, cut)
  {
    LinesAppend(body, line);
  }

  lemma StepStaysFree(s: Scan, line: string, cut: Cut)
    requires ScanIsFree(s, cut) && Lines(line) == [line] && (s.Scanning? ==> EndsLine(s.body))
    ensures ScanIsFree(s.Step(line, cut), cut)
    ensures EndsLine(line) && s.Step(line, cut).Scanning? ==> EndsLine(s.Step(line, cut).body)
  {
    if s.Scanning? && cut(line).None? {
      FreeAppend(s.body, line, cut);
      if EndsLine(line) {
        EndsLineAppend(s.body, line);
      }
    }
  }

  lemma {:induction false} ScanStaysFree(s: Scan, lines: seq<string>, cut: Cut)
    requires ScanIsFree(s, cut) && Whole(lines) && (lines != [] && s.Scanning? ==> EndsLine(s.body))
    ensures ScanIsFree(ScanFrom(s, lines, cut), cut)
    decreases |lines|
  {
    if lines != [] {
      StepStaysFree(s, lines[0], cut);
      ScanStaysFree(s.Step(lines[0], cut), lines[1..], cut);
    }
  }

  /** A section read from a file never holds a delimiter line. */
  lemma ReadIsFree(text: string, cut: Cut)
    ensures SectionsOf(text, cut).Ok? ==> AllFree(SectionsOf(text, cut).value, cut)
  {
    LinesAreWhole(text);
    assert Lines("") == [];
    ScanStaysFree(START, Lines(text), cut);
  }

  lemma ParsedIsClean<H, V, D>(text: string, j: Json<H, V, D>)
    ensures ParseOf(text, j).Ok? ==> IsClean(ParseOf(text, j).value, Delimiter)
  {
    ReadIsFree(text, Delimiter);
  }

  // ---- Laws of the format ----

  lemma ClosedIsClean<H, V, D>(c: Case<H, V, D>, cut: Cut, marker: Name -> string)
    requires Agree(cut, marker)
    ensures IsClean(Closed(c), cut) <==> IsClean(c, cut)
  {
    TerminatedIsFree(c.source, cut, marker);
    if c.html.Some? {
      TerminatedIsFree(c.html.value, cut, marker);
    }
    if c.markdown.Some? {
      TerminatedIsFree(c.markdown.value, cut, marker);
    }
  }

  /**
   * Reading what was written gives the case back, each text section ending its last line, exactly when no
   * text section of the case holds a line that is a delimiter.
   */
  lemma RoundTripIff<H(!new), V(!new), D(!new)>(c: Case<H, V, D>, j: Json<H, V, D>)
    requires AllLawful(j, Delimiter)
    ensures ParseOf(WriteOf(c, j), j) == Ok(Closed(c)) <==> IsClean(c, Delimiter)
  {
    DelimitersAgree();
    ClosedIsClean(c, Delimiter, Marker);
    if IsClean(c, Delimiter) {
      WrittenReadsBack(c, j, Delimiter, Marker);
      SectionsDecode(c, j, Delimiter);
    } else {
      ParsedIsClean(WriteOf(c, j), j);
    }
  }

  /** A case with no delimiter line in its texts, written, read and written again, is the same text. */
  lemma RewritingIsStable<H(!new), V(!new), D(!new)>(c: Case<H, V, D>, j: Json<H, V, D>)
    requires AllLawful(j, Delimiter) && IsClean(c, Delimiter)
    ensures ParseOf(WriteOf(c, j), j).Ok? && WriteOf(ParseOf(WriteOf(c, j), j).value, j) == WriteOf(c, j)
  {
    RoundTripIff(c, j);
    ClosedWritesTheSame(c, j);
  }

  lemma ClosedWritesTheSame<H, V, D>(c: Case<H, V, D>, j: Json<H, V, D>)
    ensures WriteOf(Closed(c), j) == WriteOf(c, j)
  {
  }

  /** Whatever was read survives being written and read again. */
  lemma ReadCasesSurvive<H(!new), V(!new), D(!new)>(text: string, j: Json<H, V, D>)
    requires AllLawful(j, Delimiter) && ParseOf(text, j).Ok?
    ensures ParseOf(WriteOf(ParseOf(text, j).value, j), j) == Ok(Closed(ParseOf(text, j).value))
  {
    ParsedIsClean(text, j);
    RoundTripIff(ParseOf(text, j).value, j);
  }

  // ---- Which text is refused, and why ----

  /** The names on a text's delimiter lines, in order. */
  function Delimiters(lines: seq<string>, cut: Cut): seq<Name> {
    if lines == [] then []
    else if cut(lines[0]).Some? then [cut(lines[0]).value] + Delimiters(lines[1..], cut)
    else Delimiters(lines[1..], cut)
  }

  /** Whether the first line that is not blank is not a delimiter either. */
  predicate StartsWithContent(lines: seq<string>, cut: Cut) {
    lines != [] && cut(lines[0]).None? && (!IsBlank(lines[0]) || StartsWithContent(lines[1..], cut))
  }

  /** The sections that some later delimiter closed, starting from the one that is open. */
  function ClosedFrom(current: Name, names: seq<Name>): seq<Name>
    decreases |names|
  {
    if names == [] then []
    else if names[0] == End then [current]
    else [current] + ClosedFrom(names[0], names[1..])
  }

  function ClosedSections(names: seq<Name>): seq<Name> {
    if names == [] || names[0] == End then [] else ClosedFrom(names[0], names[1..])
  }

  /** The sections begun before the end marker, or before the end of the text. */
  function Begun(names: seq<Name>): set<Name> {
    if names == [] || names[0] == End then {} else {names[0]} + Begun(names[1..])
  }

  /** Names that differ from one another and from those already seen. */
  predicate Different(names: seq<Name>, seen: set<Name>) {
    names == [] || (names[0] !in seen && Different(names[1..], seen + {names[0]}))
  }

  lemma {:induction false} DifferentMeans(names: seq<Name>, seen: set<Name>)
    ensures Different(names, seen) <==>
            && (forall n <- names :: n !in seen)
            && (forall i, j | 0 <= i < j < |names| :: names[i] != names[j])
  {
    if names != [] {
      var first, rest := names[0], names[1..];
      assert names == [first] + rest;
      DifferentMeans(rest, seen + {first});
      assert forall i | 0 < i < |names| :: names[i] == rest[i - 1] && rest[i - 1] in rest;
    }
  }

  /** What reading comes to: the sections begun, or a refusal when one was closed under a name already closed. */
  ghost predicate ComesTo(result: Result<map<Name, string>, ParseError>, fine: bool, begun: set<Name>) {
    if fine then result.Ok? && result.value.Keys == begun else result.Err? && result.error.Repeated?
  }

  /** One more delimiter while a section is open. */
  lemma OneMoreName(current: Name, next: Name, names: seq<Name>, seen: set<Name>)
    requires next != End
    ensures Different(ClosedFrom(current, [next] + names), seen)
            <==> current !in seen && Different(ClosedFrom(next, names), seen + {current})
    ensures {current} + Begun([next] + names) == {current} + ({next} + Begun(names))
  {
    assert ([next] + names)[1..] == names;
    var closed := ClosedFrom(next, names);
    assert ClosedFrom(current, [next] + names) == [current] + closed;
    assert ([current] + closed)[1..] == closed;
  }

  lemma EndCloses(current: Name, names: seq<Name>, seen: set<Name>)
    ensures Different(ClosedFrom(current, [End] + names), seen) <==> current !in seen
    ensures Begun([End] + names) == {}
  {
    assert ClosedFrom(current, [End] + names) == [current];
    assert [current][1..] == [];
  }

  /** Reading on from inside a section. */
  lemma {:induction false} ReadingOn(sections: map<Name, string>, current: Name, body: string, lines: seq<string>, cut: Cut)
    ensures var names := Delimiters(lines, cut);
            ComesTo(ScanFrom(Scanning(sections, Some(current), body), lines, cut).Finish(),
                    Different(ClosedFrom(current, names), sections.Keys), sections.Keys + {current} + Begun(names))
    decreases |lines|
  {
    if lines != [] {
      var line, rest := lines[0], lines[1..];
      var names := Delimiters(rest, cut);
      if cut(line).None? {
        ReadingOn(sections, current, body + line, rest, cut);
      } else {
        var next := cut(line).value;
        if next == End {
          EndCloses(current, names, sections.Keys);
        } else {
          OneMoreName(current, next, names, sections.Keys);
        }
        if current in sections {
          StaysFailed(Repeated(current), rest, cut);
        } else if next == End {
          StaysEnded(sections[current := body], rest, cut);
        } else {
          ReadingOn(sections[current := body], next, "", rest, cut);
          assert sections[current := body].Keys == sections.Keys + {current};
        }
      }
    } else {
      assert sections[current := body].Keys == sections.Keys + {current};
    }
  }

  /** Reading from the start: nothing but blanks may come before the first delimiter. */
  lemma {:induction false} ReadingFails(lines: seq<string>, cut: Cut)
    ensures var result := ScanFrom(START, lines, cut).Finish();
            var names := Delimiters(lines, cut);
            if StartsWithContent(lines, cut) then result == Err(Early)
            else ComesTo(result, Different(ClosedSections(names), {}), Begun(names))
    decreases |lines|
  {
    if lines != [] {
      var line, rest := lines[0], lines[1..];
      if cut(line).None? {
        if IsBlank(line) {
          ReadingFails(rest, cut);
        } else {
          StaysFailed(Early, rest, cut);
        }
      } else {
        FirstDelimiter(line, rest, cut);
      }
    }
  }

  lemma FirstDelimiter(line: string, rest: seq<string>, cut: Cut)
    requires cut(line).Some?
    ensures var names := [cut(line).value] + Delimiters(rest, cut);
            ComesTo(ScanFrom(START.Step(line, cut), rest, cut).Finish(), Different(ClosedSections(names), {}), Begun(names))
  {
    var names := Delimiters(rest, cut);
    assert ([cut(line).value] + names)[1..] == names;
    if cut(line).value == End {
      StaysEnded(map[], rest, cut);
    } else {
      var none: map<Name, string> := map[];
      ReadingOn(none, cut(line).value, "", rest, cut);
      assert START.Step(line, cut) == Scanning(none, Some(cut(line).value), "") && none.Keys == {};
      assert ClosedSections([cut(line).value] + names) == ClosedFrom(cut(line).value, names);
      assert none.Keys + {cut(line).value} + Begun(names) == {cut(line).value} + Begun(names);
    }
  }

  lemma CaseReports<H, V, D>(sections: map<Name, string>, j: Json<H, V, D>)
    ensures var r := CaseOf(sections, j);
            && r != Err(Early) && !(r.Err? && r.error.Repeated?)
            && (r == Err(NoCase) <==> Header !in sections)
            && (r == Err(NoSource) <==> Header in sections && j.header.decode(sections[Header]).Some? && Source !in sections)
            && (r.Ok? ==> Header in sections && Source in sections)
  {
  }

  /**
   * Which error is reported for which text: content before the first delimiter; then a section closed twice
   * under one name; then no case section; then, once the header has been read, no source section.
   */
  ghost predicate Answers<H, V, D>(text: string, r: Result<Case<H, V, D>, ParseError>) {
    var lines, names := Lines(text), Delimiters(Lines(text), Delimiter);
    var early, different := StartsWithContent(lines, Delimiter), Different(ClosedSections(names), {});
    && (r == Err(Early) <==> early)
    && (r.Err? && r.error.Repeated? <==> !early && !different)
    && (r == Err(NoCase) <==> !early && different && Header !in Begun(names))
    && (r == Err(NoSource) ==> !early && different && Header in Begun(names) && Source !in Begun(names))
    && (r.Ok? ==> !early && different && Header in Begun(names) && Source in Begun(names))
  }

  lemma ParseReports<H, V, D>(text: string, j: Json<H, V, D>)
    ensures Answers(text, ParseOf(text, j))
  {
    ReadingFails(Lines(text), Delimiter);
    var sections := SectionsOf(text, Delimiter);
    if sections.Ok? {
      CaseReports(sections.value, j);
    }
  }

  method Parse<H, V, D>(text: string, j: Json<H, V, D>) returns (result: Result<Case<H, V, D>, ParseError>)
    ensures result == ParseOf(text, j) && Answers(text, result)
  {
    var sections := ReadSections(text, Delimiter);
    result := if sections.Ok? then CaseOf(sections.value, j) else Err(sections.error);
    ParseReports(text, j);
  }
}
