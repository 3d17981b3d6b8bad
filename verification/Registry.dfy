/** The registry's line reader: one row, one inline table of quoted fields. */
module Registry {
  import opened Common
  import opened Text
  import opened Tokens
  import Prompt

  // ---- Trimming ----

  function TrimStart(s: string): string {
    if s != "" && IsWhitespace(s[0]) then TrimStart(s[1..]) else s
  }

  function TrimEnd(s: string): string {
    if s != "" && IsWhitespace(s[|s| - 1]) then TrimEnd(s[..|s| - 1]) else s
  }

  function Trim(s: string): string {
    TrimEnd(TrimStart(s))
  }

  function TrimCommas(s: string): string {
    if s != "" && s[0] == ',' then TrimCommas(s[1..]) else s
  }

  // ---- Escapes ----

  /** Where a quoted value ends: at its closing quote, at the end, or one past it after a last backslash. */
  function ValueEnd(s: string): (end: nat)
    ensures end <= |s| + 1
  {
    if s == "" || s[0] == '"' then 0
    else if s[0] == '\\' then if |s| == 1 then 2 else 2 + ValueEnd(s[2..])
    else 1 + ValueEnd(s[1..])
  }

  /** The two replacements the source makes, one after the other. */
  function Unescape(s: string): string {
    Prompt.Replace(Prompt.Replace(s, "\\\"", "\""), "\\\\", "\\")
  }

  /** What they should come to: each escape read once, from the left. */
  function UnescapeOnce(s: string): string {
    if s == "" then ""
    else if s[0] == '\\' && |s| > 1 then
      (if s[1] == '"' || s[1] == '\\' then [s[1]] else s[..2]) + UnescapeOnce(s[2..])
    else [s[0]] + UnescapeOnce(s[1..])
  }

  /** Text as a value ends up holding it: no quote without its backslash, no backslash alone at the end. */
  predicate IsEscaped(s: string) {
    if s == "" then true
    else if s[0] == '\\' then |s| > 1 && IsEscaped(s[2..])
    else s[0] != '"' && IsEscaped(s[1..])
  }

  function Escape(v: string): string {
    if v == "" then ""
    else (if v[0] == '"' || v[0] == '\\' then ['\\', v[0]] else [v[0]]) + Escape(v[1..])
  }

  /** The quotes unescaped, and nothing else. */
  function Quoted(s: string): string {
    if s == "" then ""
    else if s[0] == '\\' && |s| > 1 then (if s[1] == '"' then "\"" else s[..2]) + Quoted(s[2..])
    else [s[0]] + Quoted(s[1..])
  }

  lemma ReplaceKept(s: string, pattern: string, with: string)
    requires pattern != "" && s != "" && !(pattern <= s)
    ensures Prompt.Replace(s, pattern, with) == [s[0]] + Prompt.Replace(s[1..], pattern, with)
  {
  }

  lemma ReplaceSkips(s: string, pattern: string, with: string)
    requires pattern != "" && s != "" && s[0] != pattern[0]
    ensures Prompt.Replace(s, pattern, with) == [s[0]] + Prompt.Replace(s[1..], pattern, with)
  {
  }

  /** A backslash before anything but a quote is passed over, and so is what it escapes. */
  lemma PairIsKept(a: char, b: char, rest: string, pattern: string, with: string)
    requires |pattern| == 2 && pattern[1] != b && (rest == "" || b != pattern[0] || rest[0] != pattern[1])
    ensures Prompt.Replace([a, b] + rest, pattern, with) == [a, b] + Prompt.Replace(rest, pattern, with)
  {
    assert ([a, b] + rest)[1..] == [b] + rest && ([b] + rest)[1..] == rest;
    ReplaceKept([a, b] + rest, pattern, with);
    ReplaceKept([b] + rest, pattern, with);
  }

  lemma {:induction false} QuotesAreReplaced(s: string)
    requires IsEscaped(s)
    ensures Prompt.Replace(s, "\\\"", "\"") == Quoted(s)
    decreases |s|
  {
    if s != "" {
      if s[0] == '\\' {
        QuotesAreReplaced(s[2..]);
        if s[1] == '"' {
          assert s == "\\\"" + s[2..];
        } else {
          assert s == [s[0], s[1]] + s[2..] && s[..2] == [s[0], s[1]];
          PairIsKept(s[0], s[1], s[2..], "\\\"", "\"");
        }
      } else {
        QuotesAreReplaced(s[1..]);
        ReplaceSkips(s, "\\\"", "\"");
      }
    }
  }

  lemma OneIsKept(c: char, rest: string, pattern: string, with: string)
    requires pattern != "" && c != pattern[0]
    ensures Prompt.Replace([c] + rest, pattern, with) == [c] + Prompt.Replace(rest, pattern, with)
  {
    assert ([c] + rest)[1..] == rest;
    ReplaceSkips([c] + rest, pattern, with);
  }

  lemma MatchIsReplaced(rest: string, pattern: string, with: string)
    requires pattern != ""
    ensures Prompt.Replace(pattern + rest, pattern, with) == with + Prompt.Replace(rest, pattern, with)
  {
    assert (pattern + rest)[|pattern|..] == rest;
  }

  lemma {:induction false} BackslashesAreReplaced(s: string)
    requires IsEscaped(s)
    ensures Prompt.Replace(Quoted(s), "\\\\", "\\") == UnescapeOnce(s)
    decreases |s|
  {
    var pattern, with := "\\\\", "\\";
    if s != "" {
      if s[0] == '\\' {
        var rest := Quoted(s[2..]);
        BackslashesAreReplaced(s[2..]);
        if s[1] == '"' {
          OneIsKept('"', rest, pattern, with);
        } else if s[1] == '\\' {
          assert s[..2] == pattern;
          MatchIsReplaced(rest, pattern, with);
        } else {
          assert s[..2] == [s[0], s[1]];
          PairIsKept(s[0], s[1], rest, pattern, with);
        }
      } else {
        BackslashesAreReplaced(s[1..]);
        OneIsKept(s[0], Quoted(s[1..]), pattern, with);
      }
    }
  }

  /** On what a value can hold, two replacements one after the other read each escape once. */
  lemma TwoReplacesAreOnePass(s: string)
    requires IsEscaped(s)
    ensures Unescape(s) == UnescapeOnce(s)
  {
    QuotesAreReplaced(s);
    BackslashesAreReplaced(s);
  }

  lemma {:induction false} EscapedReadsBack(v: string)
    ensures IsEscaped(Escape(v)) && UnescapeOnce(Escape(v)) == v
  {
    if v != "" {
      EscapedReadsBack(v[1..]);
      var rest := Escape(v[1..]);
      if v[0] == '"' || v[0] == '\\' {
        assert (['\\', v[0]] + rest)[2..] == rest;
      } else {
        assert ([v[0]] + rest)[1..] == rest;
      }
      assert v == [v[0]] + v[1..];
    }
  }

  /** What lies before a value's end is text a value can hold. */
  lemma {:induction false} ValuesAreEscaped(s: string)
    requires ValueEnd(s) <= |s|
    ensures IsEscaped(s[..ValueEnd(s)])
  {
    if s != "" && s[0] != '"' {
      var end := ValueEnd(s);
      if s[0] == '\\' {
        ValuesAreEscaped(s[2..]);
        assert s[..end][2..] == s[2..][..end - 2];
      } else {
        ValuesAreEscaped(s[1..]);
        assert s[..end][1..] == s[1..][..end - 1];
      }
    }
  }

  /** So every value the reader takes out, whatever the line, has each of its escapes read once. */
  lemma ReadValuesAreOnePass(s: string)
    requires ValueEnd(s) <= |s|
    ensures Unescape(s[..ValueEnd(s)]) == UnescapeOnce(s[..ValueEnd(s)])
  {
    ValuesAreEscaped(s);
    TwoReplacesAreOnePass(s[..ValueEnd(s)]);
  }

  lemma {:induction false} EscapedEnds(v: string, rest: string)
    ensures ValueEnd(Escape(v) + "\"" + rest) == |Escape(v)|
  {
    var s := Escape(v) + "\"" + rest;
    if v == "" {
      assert s == "\"" + rest;
    } else {
      EscapedEnds(v[1..], rest);
      var tail := Escape(v[1..]) + "\"" + rest;
      if v[0] == '"' || v[0] == '\\' {
        assert s == ['\\', v[0]] + tail && s[2..] == tail;
      } else {
        assert s == [v[0]] + tail && s[1..] == tail;
      }
    }
  }

  // ---- Reading a field ----

  /** Slicing past the end, after a value that ends in a lone backslash, stops the build. */
  datatype Field = Found(value: string) | Absent | Panics

  function KeyOf(s: string): string {
    Trim(TrimCommas(Trim(s)))
  }

  /** What follows the opening quote of the first field, if there is one. */
  function OpenOf(rest: string): Option<string> {
    var eq := FirstIndexOf(rest, '=');
    if eq == |rest| then None
    else
      var after := TrimStart(rest[eq + 1..]);
      if after == "" || after[0] != '"' then None else Some(after[1..])
  }

  lemma {:induction false} TrimStartShrinks(s: string)
    ensures |TrimStart(s)| <= |s|
  {
    if s != "" && IsWhitespace(s[0]) {
      TrimStartShrinks(s[1..]);
    }
  }

  lemma OpenShrinks(rest: string)
    ensures OpenOf(rest).Some? ==> |OpenOf(rest).value| < |rest|
  {
    if FirstIndexOf(rest, '=') < |rest| {
      TrimStartShrinks(rest[FirstIndexOf(rest, '=') + 1..]);
    }
  }

  function FieldOf(rest: string, name: string): Field
    decreases |rest|
  {
    var from := OpenOf(rest);
    if from.None? then Absent
    else
      OpenShrinks(rest);
      var end := ValueEnd(from.value);
      if KeyOf(rest[..FirstIndexOf(rest, '=')]) == name then
        if end <= |from.value| then Found(Unescape(from.value[..end])) else Panics
      else if end + 1 <= |from.value| then FieldOf(from.value[end + 1..], name)
      else Absent
  }

  method EndOfValue(s: string) returns (end: nat)
    ensures end == ValueEnd(s)
  {
    end := 0;
    while end < |s|
      invariant end <= |s| + 1
      invariant ValueEnd(s) == if end <= |s| then end + ValueEnd(s[end..]) else end
      decreases |s| - end
    {
      if s[end] == '\\' {
        assert end + 1 < |s| ==> s[end..][2..] == s[end + 2..];
        end := end + 2;
      } else if s[end] == '"' {
        break;
      } else {
        assert s[end..][1..] == s[end + 1..];
        end := end + 1;
      }
    }
  }

  /** The value of a named field within one inline table. */
  method ReadField(body: string, name: string) returns (f: Field)
    ensures f == FieldOf(body, name)
  {
    var rest := body;
    while true
      invariant FieldOf(rest, name) == FieldOf(body, name)
      decreases |rest|
    {
      OpenShrinks(rest);
      var eq := FirstIndexOf(rest, '=');
      if eq == |rest| {
        return Absent;
      }
      var key := KeyOf(rest[..eq]);
      var after := TrimStart(rest[eq + 1..]);
      if after == "" || after[0] != '"' {
        return Absent;
      }
      var value := after[1..];
      var end := EndOfValue(value);
      if key == name {
        return if end <= |value| then Found(Unescape(value[..end])) else Panics;
      }
      if end + 1 > |value| {
        return Absent;
      }
      rest := value[end + 1..];
    }
  }

  /** `KEY = { .. }` into its key and its body, tolerating a quoted key. */
  function SplitRow(line: string): Option<(string, string)> {
    var eq := FirstIndexOf(line, '=');
    if eq == |line| then None
    else
      var rest := Trim(line[eq + 1..]);
      if rest == "" || rest[0] != '{' then None
      else
        var body := TrimEnd(rest[1..]);
        if body == "" || body[|body| - 1] != '}' then None
        else Some((TrimChar(Trim(line[..eq]), '"'), body[..|body| - 1]))
  }

  // ---- Printing, and reading back ----

  datatype Named = Named(name: string, value: string)

  predicate IsName(n: string) {
    n != "" && forall c <- n :: c != '=' && c != ',' && c != '"' && !IsWhitespace(c)
  }

  function Print(fields: seq<Named>, lead: string): string {
    if fields == [] then ""
    else lead + fields[0].name + " = \"" + Escape(fields[0].value) + "\"" + Print(fields[1..], ", ")
  }

  function PrintRow(key: string, fields: seq<Named>): string {
    key + " = {" + (Print(fields, " ") + " ") + "}"
  }

  function FirstOf(fields: seq<Named>, name: string): Field {
    if fields == [] then Absent
    else if fields[0].name == name then Found(fields[0].value)
    else FirstOf(fields[1..], name)
  }

  lemma {:induction false} FindAt(a: string, c: char, b: string)
    requires c !in a
    ensures FirstIndexOf(a + [c] + b, c) == |a|
  {
    var s := a + [c] + b;
    if a == "" {
      assert s == [c] + b;
    } else {
      assert s[0] == a[0] && a[0] in a;
      assert s[1..] == a[1..] + [c] + b;
      FindAt(a[1..], c, b);
    }
  }

  lemma FindNone(s: string, c: char)
    requires c !in s
    ensures FirstIndexOf(s, c) == |s|
  {
  }

  /** A name with a space after it, and nothing or a separator before it, is read as the name. */
  lemma KeyIsName(lead: string, n: string)
    requires IsName(n) && (lead == "" || lead == " " || lead == ", ")
    ensures KeyOf(lead + n + " ") == n
  {
    TrimName(n);
    assert n + " " == n + [' '];
    if lead == "" {
      assert lead + n + " " == n + " ";
    } else if lead == " " {
      assert (lead + n + " ")[1..] == n + " ";
    } else {
      var s := ", " + n + " ";
      assert s[..|s| - 1] == ", " + n;
      assert (", " + n)[|n| + 1] == n[|n| - 1] && n[|n| - 1] in n;
      assert TrimStart(s) == s && TrimEnd(s) == TrimEnd(", " + n) == ", " + n;
      assert (", " + n)[1..] == " " + n;
      assert TrimCommas(", " + n) == " " + n;
      assert (" " + n)[1..] == n;
    }
    if lead != ", " {
      assert n[0] in n;
    }
  }

  lemma TrimName(n: string)
    requires IsName(n)
    ensures TrimStart(n) == n && TrimEnd(n) == n && TrimStart(n + " ") == n + " " && TrimEnd(n + " ") == n
    ensures TrimCommas(n) == n
  {
    assert n[0] in n && n[|n| - 1] in n;
    assert (n + " ")[..|n|] == n;
  }

  /** One printed field: what stands before its `=`, after its quote, and after its value. */
  lemma FieldReads(lead: string, f: Named, rest: string)
    requires IsName(f.name) && (lead == "" || lead == " " || lead == ", ")
    ensures var s := lead + f.name + " = \"" + Escape(f.value) + "\"" + rest;
            && FirstIndexOf(s, '=') < |s| && KeyOf(s[..FirstIndexOf(s, '=')]) == f.name
            && OpenOf(s) == Some(Escape(f.value) + "\"" + rest)
  {
    var value := Escape(f.value) + "\"" + rest;
    var s := lead + f.name + " = \"" + Escape(f.value) + "\"" + rest;
    var before := lead + f.name + " ";
    assert s == before + ['='] + (" \"" + value);
    assert '=' !in lead && '=' !in f.name;
    FindAt(before, '=', " \"" + value);
    assert s[..|before|] == before;
    KeyIsName(lead, f.name);
    assert s[|before| + 1..] == " \"" + value;
    OpenQuote(value);
  }

  lemma OpenQuote(value: string)
    ensures TrimStart(" \"" + value) == "\"" + value && ("\"" + value)[1..] == value
  {
    assert (" \"" + value)[1..] == "\"" + value;
    assert TrimStart("\"" + value) == "\"" + value;
  }

  /** Past one field: its value, unescaped, if it is the one asked for; otherwise the rest. */
  lemma FieldStep(s: string, f: Named, rest: string, name: string)
    requires FirstIndexOf(s, '=') < |s| && KeyOf(s[..FirstIndexOf(s, '=')]) == f.name
    requires OpenOf(s) == Some(Escape(f.value) + "\"" + rest)
    ensures FieldOf(s, name) == if f.name == name then Found(f.value) else FieldOf(rest, name)
  {
    var value := Escape(f.value) + "\"" + rest;
    EscapedEnds(f.value, rest);
    assert value[..|Escape(f.value)|] == Escape(f.value);
    assert value[|Escape(f.value)| + 1..] == rest;
    EscapedReadsBack(f.value);
    TwoReplacesAreOnePass(Escape(f.value));
  }

  /** Reading gives back each name's first value, and nothing for a name that is not there. */
  lemma {:induction false} PrintedFieldsRead(fields: seq<Named>, lead: string, tail: string, name: string)
    requires (forall f <- fields :: IsName(f.name)) && (lead == "" || lead == " " || lead == ", ") && '=' !in tail
    ensures FieldOf(Print(fields, lead) + tail, name) == FirstOf(fields, name)
    decreases |fields|
  {
    if fields == [] {
      assert Print(fields, lead) + tail == tail;
      FindNone(tail, '=');
    } else {
      var f, rest := fields[0], Print(fields[1..], ", ") + tail;
      assert f in fields && forall g <- fields[1..] :: g in fields;
      var s := lead + f.name + " = \"" + Escape(f.value) + "\"" + rest;
      assert Print(fields, lead) + tail == s;
      FieldReads(lead, f, rest);
      FieldStep(s, f, rest, name);
      PrintedFieldsRead(fields[1..], ", ", tail, name);
    }
  }

  lemma {:induction false} TrimBraces(body: string)
    ensures Trim(" {" + body + "}") == "{" + body + "}" && TrimEnd(body + "}") == body + "}"
  {
    assert (" {" + body + "}")[1..] == "{" + body + "}";
    assert ("{" + body + "}")[|body| + 1] == '}' && (body + "}")[|body|] == '}';
    assert TrimStart("{" + body + "}") == "{" + body + "}";
    assert TrimEnd("{" + body + "}") == "{" + body + "}";
  }

  /** A printed row splits into its key and exactly the body it was printed with. */
  lemma RowsSplit(key: string, body: string)
    requires IsName(key)
    ensures SplitRow(key + " = {" + body + "}") == Some((key, body))
  {
    var line := key + " = {" + body + "}";
    var before := key + " ";
    assert line == before + ['='] + (" {" + body + "}");
    FindAt(before, '=', " {" + body + "}");
    assert line[..|before|] == before && line[|before| + 1..] == " {" + body + "}";
    TrimBraces(body);
    assert ("{" + body + "}")[1..] == body + "}";
    assert (body + "}")[..|body|] == body;
    TrimName(key);
    assert key[0] in key && key[|key| - 1] in key;
  }

  /** A row of the registry, printed and read. */
  lemma PrintedRowsRead(key: string, fields: seq<Named>, name: string)
    requires IsName(key) && forall f <- fields :: IsName(f.name)
    ensures var row := SplitRow(PrintRow(key, fields));
            row.Some? && row.value.0 == key && FieldOf(row.value.1, name) == FirstOf(fields, name)
  {
    RowsSplit(key, Print(fields, " ") + " ");
    PrintedFieldsRead(fields, " ", " ", name);
  }

  // ---- When the reader stops the build ----

  /** The reader stops the build only on a value that ends in a backslash and no quote. */
  lemma {:induction false} PanicsOnlyOnLoneBackslash(rest: string, name: string)
    ensures FieldOf(rest, name).Panics? ==> rest != "" && rest[|rest| - 1] == '\\'
    decreases |rest|
  {
    var from := OpenOf(rest);
    OpenShrinks(rest);
    if from.Some? {
      OpenIsSuffix(rest);
      var end := ValueEnd(from.value);
      if KeyOf(rest[..FirstIndexOf(rest, '=')]) == name {
        if end > |from.value| {
          OverrunIsBackslash(from.value);
        }
      } else if end + 1 <= |from.value| {
        PanicsOnlyOnLoneBackslash(from.value[end + 1..], name);
      }
    }
  }

  lemma {:induction false} TrimStartIsSuffix(s: string)
    ensures EndsWith(s, TrimStart(s))
  {
    if s != "" && IsWhitespace(s[0]) {
      TrimStartIsSuffix(s[1..]);
      var t := TrimStart(s[1..]);
      assert s[|s| - |t|..] == s[1..][|s[1..]| - |t|..];
    }
  }

  lemma SuffixOfRest(s: string, k: nat, after: string)
    requires k <= |s| && EndsWith(s[k..], after) && after != ""
    ensures EndsWith(s, after[1..])
  {
    var n := |s| - |after|;
    assert s[n..] == s[k..][n - k..] == after;
    assert s[n + 1..] == s[n..][1..];
  }

  lemma OpenIsSuffix(rest: string)
    ensures OpenOf(rest).Some? ==> EndsWith(rest, OpenOf(rest).value)
  {
    if OpenOf(rest).Some? {
      var eq := FirstIndexOf(rest, '=');
      TrimStartIsSuffix(rest[eq + 1..]);
      SuffixOfRest(rest, eq + 1, TrimStart(rest[eq + 1..]));
    }
  }

  lemma {:induction false} OverrunIsBackslash(s: string)
    requires ValueEnd(s) > |s|
    ensures s != "" && s[|s| - 1] == '\\'
  {
    if s != "" && |s| > 1 {
      if s[0] == '\\' {
        OverrunIsBackslash(s[2..]);
      } else {
        OverrunIsBackslash(s[1..]);
      }
    }
  }

  /** What stands after the opening quote of the first field of this name, once every field before it has been closed. */
  function ValueAt(rest: string, name: string): Option<string>
    decreases |rest|
  {
    var from := OpenOf(rest);
    if from.None? then None
    else
      OpenShrinks(rest);
      var end := ValueEnd(from.value);
      if KeyOf(rest[..FirstIndexOf(rest, '=')]) == name then from
      else if end + 1 <= |from.value| then ValueAt(from.value[end + 1..], name)
      else None
  }

  /** Text a value could hold, and then a backslash with nothing to escape. */
  predicate EndsUnescaped(s: string) {
    s != "" && s[|s| - 1] == '\\' && IsEscaped(s[..|s| - 1])
  }

  /** A value overruns its line exactly when it has no closing quote and its last backslash escapes nothing. */
  lemma {:induction false} OverrunsIff(s: string)
    ensures ValueEnd(s) > |s| <==> EndsUnescaped(s)
  {
    if |s| == 1 {
      assert s[..0] == "";
    } else if |s| > 1 {
      var init := s[..|s| - 1];
      assert init[0] == s[0];
      if s[0] == '\\' {
        OverrunsIff(s[2..]);
        assert |s| > 2 ==> init[2..] == s[2..][..|s| - 3];
      } else {
        OverrunsIff(s[1..]);
        assert init[1..] == s[1..][..|s| - 2];
      }
    }
  }

  /** Reading a name stops the build exactly when the first field of that name overruns. */
  lemma {:induction false} PanicsIff(rest: string, name: string)
    ensures FieldOf(rest, name).Panics? <==> ValueAt(rest, name).Some? && EndsUnescaped(ValueAt(rest, name).value)
    decreases |rest|
  {
    var from := OpenOf(rest);
    OpenShrinks(rest);
    if from.Some? {
      OverrunsIff(from.value);
      var end := ValueEnd(from.value);
      if KeyOf(rest[..FirstIndexOf(rest, '=')]) != name && end + 1 <= |from.value| {
        PanicsIff(from.value[end + 1..], name);
      }
    }
  }

  /** A line that does: a name, and a quoted backslash that is never closed. */
  lemma LoneBackslashPanics(name: string)
    requires IsName(name)
    ensures FieldOf(name + " = \"\\", name) == Panics
  {
    var line := name + " = \"\\";
    var before := name + " ";
    assert line == before + ['='] + " \"\\" && '=' !in name;
    FindAt(before, '=', " \"\\");
    assert line[..|before|] == before && line[|before| + 1..] == " \"\\";
    assert "" + name + " " == before;
    KeyIsName("", name);
    assert " \"\\" == " \"" + "\\";
    OpenQuote("\\");
    assert ValueEnd("\\") == 2;
  }
}
