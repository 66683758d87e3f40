/** The KEY=VALUE file parser of the video configuration renderer. */
module EnvFile {
  import opened Common
  import opened Text

  datatype Line = Skipped | Assignment(name: string, value: string) | NotKeyValue

  datatype Loaded = Values(values: map<string, string>) | BadLine(number: nat)

  /** Index of the first line break, or |s|. */
  function FirstBreak(s: string): (n: nat)
    ensures n <= |s| && (n < |s| ==> IsLineBreak(s[n]))
    ensures forall i :: 0 <= i < n ==> !IsLineBreak(s[i])
  {
    if s == [] || IsLineBreak(s[0]) then 0 else FirstBreak(s[1..]) + 1
  }

  /** str.splitlines. */
  function SplitLines(s: string): seq<string>
    decreases |s|
  {
    if s == [] then []
    else
      var n := FirstBreak(s);
      if n == |s| then [s]
      else [s[..n]] + SplitLines(s[n + (if s[n] == '\r' && n + 1 < |s| && s[n + 1] == '\n' then 2 else 1)..])
  }

  /** The newline translation of read_text. */
  function Translate(s: string): string
    decreases |s|
  {
    if s == [] then []
    else if s[0] == '\r' then ['\n'] + Translate(if |s| > 1 && s[1] == '\n' then s[2..] else s[1..])
    else [s[0]] + Translate(s[1..])
  }

  lemma BreakFirst(s: string)
    requires s != [] && IsLineBreak(s[0])
    ensures SplitLines(s) == [[]] + SplitLines(s[if s[0] == '\r' && |s| > 1 && s[1] == '\n' then 2 else 1..])
  {
    assert FirstBreak(s) == 0 && s[..0] == [];
  }

  lemma PlainFirst(c: char, s: string)
    requires !IsLineBreak(c)
    ensures s == [] ==> SplitLines([c]) == [[c]]
    ensures s != [] ==> |SplitLines(s)| >= 1 && SplitLines([c] + s) == [[c] + SplitLines(s)[0]] + SplitLines(s)[1..]
  {
    var whole := [c] + s;
    assert whole[1..] == s;
    assert FirstBreak(whole) == FirstBreak(s) + 1;
    var n := FirstBreak(s);
    if s != [] {
      assert whole[..n + 1] == [c] + s[..n];
      if n == |s| {
        assert s[..n] == s;
      } else {
        var m := if s[n] == '\r' && n + 1 < |s| && s[n + 1] == '\n' then 2 else 1;
        assert whole[n + 1] == s[n] && (n + 1 < |s| ==> whole[n + 2] == s[n + 1]);
        assert whole[n + 1 + m..] == s[n + m..];
        assert SplitLines(s)[1..] == SplitLines(s[n + m..]);
      }
    }
  }

  /** The translation changes no line, since splitlines breaks wherever it finds a carriage return. */
  lemma {:induction false} TranslationKeepsLines(s: string)
    ensures SplitLines(Translate(s)) == SplitLines(s) && (Translate(s) == [] <==> s == [])
    decreases |s|
  {
    if s != [] {
      var crlf := s[0] == '\r' && |s| > 1 && s[1] == '\n';
      var rest := s[if crlf then 2 else 1..];
      TranslationKeepsLines(rest);
      var text := Translate(s);
      assert text == [text[0]] + Translate(rest) && text[1..] == Translate(rest);
      if IsLineBreak(s[0]) {
        BreakFirst(s);
        BreakFirst(text);
      } else {
        PlainFirst(s[0], rest);
        PlainFirst(s[0], Translate(rest));
        assert s == [s[0]] + rest;
        assert [s[0]] + [] == [s[0]];
      }
    }
  }

  /** One pair of surrounding quotes is removed. */
  function Unquote(value: string): string {
    if |value| >= 2 && value[0] == value[|value| - 1] && (value[0] == '"' || value[0] == '\'')
    then value[1..|value| - 1]
    else value
  }

  const EXPORT := "export "

  function ParseAssignment(assignment: string): Line {
    var (name, found, value) := Partition(assignment, '=');
    if !found then NotKeyValue else Assignment(Strip(name), Unquote(Strip(value)))
  }

  function ParseLine(raw: string): Line {
    var line := Strip(raw);
    if line == "" || line[0] == '#' then Skipped
    else ParseAssignment(if StartsWith(line, EXPORT) then Strip(line[|EXPORT|..]) else line)
  }

  function ParseLines(lines: seq<string>): (parsed: seq<Line>)
    ensures |parsed| == |lines| && forall i :: 0 <= i < |lines| ==> parsed[i] == ParseLine(lines[i])
  {
    seq(|lines|, i requires 0 <= i < |lines| => ParseLine(lines[i]))
  }

  /** The dictionary after the lines, or the number of the first one that is no assignment. */
  function Load(parsed: seq<Line>): Loaded {
    if parsed == [] then Values(map[])
    else
      match Load(parsed[..|parsed| - 1])
      case BadLine(number) => BadLine(number)
      case Values(values) =>
        match parsed[|parsed| - 1]
        case Skipped => Values(values)
        case NotKeyValue => BadLine(|parsed|)
        case Assignment(name, value) => Values(values[name := value])
  }

  /** `text` is the decoded file. */
  function LoadText(text: string): Loaded {
    Load(ParseLines(SplitLines(Translate(text))))
  }

  method LoadEnvFile(text: string) returns (loaded: Loaded)
    ensures loaded == LoadText(text)
  {
    var values: map<string, string> := map[];
    var lines := SplitLines(Translate(text));
    ghost var parsed := ParseLines(lines);
    for number := 0 to |lines|
      invariant Load(parsed[..number]) == Values(values)
    {
      assert parsed[..number + 1][..number] == parsed[..number];
      var line := Strip(lines[number]);
      if line == "" || line[0] == '#' { continue; }
      if StartsWith(line, EXPORT) { line := Strip(line[|EXPORT|..]); }
      var (name, found, value) := Partition(line, '=');
      if !found {
        BadLineStays(parsed, number + 1);
        return BadLine(number + 1);
      }
      values := values[Strip(name) := Unquote(Strip(value))];
    }
    assert parsed[..|lines|] == parsed;
    loaded := Values(values);
  }

  lemma {:induction false} BadLineStays(parsed: seq<Line>, n: nat)
    requires n <= |parsed| && Load(parsed[..n]).BadLine?
    ensures Load(parsed) == Load(parsed[..n])
  {
    if n == |parsed| {
      assert parsed[..n] == parsed;
    } else {
      var init := parsed[..|parsed| - 1];
      assert init[..n] == parsed[..n];
      BadLineStays(init, n);
    }
  }

  // ----- what the dictionary holds -----

  predicate LastAssigns(parsed: seq<Line>, i: nat, name: string, value: string) {
    && i < |parsed| && parsed[i] == Assignment(name, value)
    && forall j :: i < j < |parsed| && parsed[j].Assignment? ==> parsed[j].name != name
  }

  /** Index of the first line that is neither blank, nor a comment, nor an assignment; or the length. */
  function FirstBad(parsed: seq<Line>): (n: nat)
    ensures n <= |parsed| && (n < |parsed| ==> parsed[n].NotKeyValue?)
    ensures forall i :: 0 <= i < n ==> !parsed[i].NotKeyValue?
  {
    if parsed == [] then 0
    else
      var n := FirstBad(parsed[..|parsed| - 1]);
      if n < |parsed| - 1 || parsed[|parsed| - 1].NotKeyValue? then n else n + 1
  }

  /** Loading fails exactly when there is such a line, and it names the first one. */
  lemma {:induction false} LoadFailsExactly(parsed: seq<Line>)
    ensures Load(parsed).BadLine? <==> FirstBad(parsed) < |parsed|
    ensures Load(parsed).BadLine? ==> Load(parsed).number == FirstBad(parsed) + 1
  {
    if parsed != [] { LoadFailsExactly(parsed[..|parsed| - 1]); }
  }

  /** The last assignment of a name wins, in every file. */
  lemma {:induction false} LastAssignmentWins(parsed: seq<Line>, name: string, value: string)
    requires Load(parsed).Values?
    ensures name in Load(parsed).values && Load(parsed).values[name] == value <==>
            exists i :: LastAssigns(parsed, i, name, value)
  {
    if parsed != [] {
      var init, last := parsed[..|parsed| - 1], parsed[|parsed| - 1];
      LastAssignmentWins(init, name, value);
      assert parsed == init + [last];
      if last.Assignment? && last.name == name {
        assert forall i :: LastAssigns(parsed, i, name, value) ==> i == |init|;
        assert last.value == value ==> LastAssigns(parsed, |init|, name, value);
      } else {
        assert forall i :: LastAssigns(parsed, i, name, value) <==> LastAssigns(init, i, name, value);
      }
    }
  }

  // ----- printed files -----

  datatype Entry = Entry(name: string, value: string, export_: bool)

  function Print(e: Entry): string {
    (if e.export_ then EXPORT else "") + (e.name + Tail(e.value))
  }

  /** The names that a printed line gives back: trimmed, without `=`, and, in a line without `export`,
      not taken for a comment or for an exported name. */
  predicate Readable(e: Entry) {
    && Trimmed(e.name) && '=' !in e.name
    && (e.export_ || ((e.name == [] || e.name[0] != '#') && !StartsWith(e.name, EXPORT)))
  }

  /** From the equals sign on. */
  function Tail(value: string): (tail: string)
    ensures IsTail(tail)
  {
    ['='] + Quoted(value)
  }

  function Quoted(value: string): (quoted: string)
    ensures |quoted| >= 2 && quoted[0] == '"' && quoted[|quoted| - 1] == '"' && quoted[1..|quoted| - 1] == value
  {
    ['"'] + (value + ['"'])
  }

  predicate IsTail(tail: string) {
    |tail| >= 2 && tail[0] == '=' && tail[|tail| - 1] == '"'
  }

  lemma ParsesAround(assignment: string, name: string, quoted: string)
    requires Partition(assignment, '=') == (name, true, quoted)
    requires Trimmed(name) && Trimmed(quoted)
    ensures ParseAssignment(assignment) == Assignment(name, Unquote(quoted))
  {
  }

  lemma QuotedUnquotes(value: string)
    ensures Trimmed(Quoted(value)) && Unquote(Quoted(value)) == value
  {
  }

  lemma AssignmentParses(name: string, value: string)
    requires Trimmed(name) && '=' !in name
    ensures ParseAssignment(name + Tail(value)) == Assignment(name, value)
  {
    var quoted := Quoted(value);
    assert name + Tail(value) == name + ['='] + quoted;
    PartitionPrinted(name, '=', quoted);
    QuotedUnquotes(value);
    ParsesAround(name + Tail(value), name, quoted);
  }

  lemma JoinedIsTrimmed(head: string, tail: string)
    requires tail != [] && !IsSpace(tail[0]) && !IsSpace(tail[|tail| - 1])
    requires head == [] || !IsSpace(head[0])
    ensures Trimmed(head + tail) && head + tail != []
    ensures (head + tail)[0] == if head == [] then tail[0] else head[0]
    ensures (head + tail)[..|head|] == head && (head + tail)[|head|..] == tail
    ensures (head + tail)[|head + tail| - 1] == tail[|tail| - 1]
  {
  }

  /** What parsing a trimmed line comes to. */
  lemma ParseTrimmed(line: string)
    requires Trimmed(line) && line != [] && line[0] != '#'
    ensures StartsWith(line, EXPORT) ==> ParseLine(line) == ParseAssignment(Strip(line[|EXPORT|..]))
    ensures !StartsWith(line, EXPORT) ==> ParseLine(line) == ParseAssignment(line)
  {
  }

  /** With `export`, every trimmed name without `=` is read back. */
  lemma ExportedParses(name: string, value: string)
    requires Trimmed(name) && '=' !in name
    ensures ParseLine(EXPORT + (name + Tail(value))) == Assignment(name, value)
  {
    var rest := name + Tail(value);
    JoinedIsTrimmed(name, Tail(value));
    AssignmentParses(name, value);
    ExportedRestParses(EXPORT + rest, rest);
  }

  lemma ExportedRestParses(line: string, rest: string)
    requires line == EXPORT + rest
    requires Trimmed(rest) && rest != []
    ensures ParseLine(line) == ParseAssignment(rest)
  {
    JoinedIsTrimmed(EXPORT, rest);
    ParseTrimmed(line);
  }

  lemma StartsWithExport(name: string, tail: string)
    requires IsTail(tail)
    ensures StartsWith(name + tail, EXPORT) <==> StartsWith(name, EXPORT)
  {
    var line := name + tail;
    if |name| >= |EXPORT| {
      assert line[..|EXPORT|] == name[..|EXPORT|];
    } else if |line| >= |EXPORT| {
      assert line[..|EXPORT|][|name|] == '=';
      assert EXPORT[|name|] != '=';
    }
  }

  lemma StripShrinks(s: string)
    ensures |Strip(s)| <= |s| && forall c :: c in Strip(s) ==> c in s
  {
  }

  lemma ParsedNamesAreClean(assignment: string)
    ensures var line := ParseAssignment(assignment);
            line.Assignment? ==> Trimmed(line.name) && '=' !in line.name
  {
    StripShrinks(Partition(assignment, '=').0);
  }

  lemma {:induction false} FirstIndexBefore(s: string, c: char, i: nat)
    requires i < |s| && s[i] == c
    ensures FirstIndex(s, c) <= i
  {
    if s[0] != c { FirstIndexBefore(s[1..], c, i - 1); }
  }

  /** Stripping moves an equals sign towards the front. */
  lemma StrippedNameIsShort(rest: string, i: nat)
    requires i < |rest| && rest[i] == '=' && !IsSpace(rest[|rest| - 1])
    ensures ParseAssignment(Strip(rest)).Assignment? && |ParseAssignment(Strip(rest)).name| <= i
  {
    SpacesFromAreSpaces(rest, 0);
    var stripped := LStrip(rest);
    var removed := |rest| - |stripped|;
    assert removed <= i && stripped[i - removed] == '=';
    assert stripped[|stripped| - 1] == rest[|rest| - 1];
    assert Strip(rest) == stripped;
    FirstIndexBefore(stripped, '=', i - removed);
    StripShrinks(Partition(stripped, '=').0);
  }

  lemma DropOfConcat(s: string, tail: string, n: nat)
    requires n <= |s| && tail != []
    ensures (s + tail)[n..] == s[n..] + tail
    ensures (s[n..] + tail)[|s| - n] == tail[0]
    ensures (s[n..] + tail)[|s| - n + |tail| - 1] == tail[|tail| - 1]
  {
  }

  lemma ExportedIsNoComment(name: string)
    requires StartsWith(name, EXPORT)
    ensures |EXPORT| <= |name| && name[0] != '#'
  {
    assert name[..|EXPORT|][0] == name[0];
  }

  /** Without `export`, a name that starts with `export ` comes back shorter. */
  lemma ExportedNameIsLost(name: string, tail: string)
    requires Trimmed(name) && StartsWith(name, EXPORT) && IsTail(tail)
    ensures var line := ParseLine(name + tail); line.Assignment? && |line.name| < |name|
  {
    ExportedIsNoComment(name);
    JoinedIsTrimmed(name, tail);
    StartsWithExport(name, tail);
    ParseTrimmed(name + tail);
    DropOfConcat(name, tail, |EXPORT|);
    StrippedNameIsShort(name[|EXPORT|..] + tail, |name| - |EXPORT|);
  }

  lemma ParsedLineIsClean(raw: string)
    ensures ParseLine(raw).Assignment? ==> Trimmed(ParseLine(raw).name) && '=' !in ParseLine(raw).name
  {
    var line := Strip(raw);
    ParsedNamesAreClean(if StartsWith(line, EXPORT) then Strip(line[|EXPORT|..]) else line);
  }

  /** One line, printed and parsed: for every value, it gives its entry back exactly when the name is
      readable. */
  lemma LineUndoesPrintExactly(e: Entry)
    ensures ParseLine(Print(e)) == Assignment(e.name, e.value) <==> Readable(e)
  {
    if !Trimmed(e.name) || '=' in e.name {
      ParsedLineIsClean(Print(e));
    } else if e.export_ {
      ExportedParses(e.name, e.value);
    } else {
      PlainLineExactly(e.name, e.value);
      assert Print(e) == e.name + Tail(e.value);
    }
  }

  /** A plain entry named `#a` comes back as a comment. */
  lemma CommentedNameIsLost(value: string)
    ensures ParseLine(Print(Entry("#a", value, false))) == Skipped
  {
    JoinedIsTrimmed("#a", Tail(value));
    CommentIsSkipped("#a" + Tail(value));
  }

  lemma CommentIsSkipped(line: string)
    requires Trimmed(line) && line != [] && line[0] == '#'
    ensures ParseLine(line) == Skipped
  {
  }

  /** And any plain entry whose name starts with `export ` under the rest of its name. */
  lemma ExportedNameIsRenamed(name: string, value: string)
    requires Trimmed(name) && '=' !in name
    ensures ParseLine(Print(Entry(EXPORT + name, value, false))) == Assignment(name, value)
  {
    ExportedParses(name, value);
    PlainOrExported(name, value);
  }

  /** Both entries print the same line. */
  lemma PlainOrExported(name: string, value: string)
    ensures Print(Entry(EXPORT + name, value, false)) == EXPORT + (name + Tail(value))
  {
    assert (EXPORT + name) + Tail(value) == EXPORT + (name + Tail(value));
  }

  lemma PlainLineExactly(name: string, value: string)
    requires Trimmed(name) && '=' !in name
    ensures ParseLine(name + Tail(value)) == Assignment(name, value) <==>
            (name == [] || name[0] != '#') && !StartsWith(name, EXPORT)
  {
    JoinedIsTrimmed(name, Tail(value));
    AssignmentParses(name, value);
    StartsWithExport(name, Tail(value));
    if StartsWith(name, EXPORT) { ExportedNameIsLost(name, Tail(value)); }
    PlainCases(name + Tail(value), name, value);
  }

  lemma PlainCases(line: string, name: string, value: string)
    requires Trimmed(line) && line != [] && ParseAssignment(line) == Assignment(name, value)
    requires line[0] == '#' <==> name != [] && name[0] == '#'
    requires StartsWith(line, EXPORT) <==> StartsWith(name, EXPORT)
    requires StartsWith(name, EXPORT) ==> ParseLine(line).Assignment? && |ParseLine(line).name| < |name|
    ensures ParseLine(line) == Assignment(name, value) <==>
            (name == [] || name[0] != '#') && !StartsWith(name, EXPORT)
  {
    if line[0] != '#' { ParseTrimmed(line); }
  }

  function PrintFile(entries: seq<Entry>): string {
    if entries == [] then [] else Print(entries[0]) + ['\n'] + PrintFile(entries[1..])
  }

  predicate OneLine(s: string) {
    forall i :: 0 <= i < |s| ==> !IsLineBreak(s[i])
  }

  function Lines(entries: seq<Entry>): (lines: seq<string>)
    ensures |lines| == |entries| && forall i :: 0 <= i < |lines| ==> lines[i] == Print(entries[i])
  {
    seq(|entries|, i requires 0 <= i < |entries| => Print(entries[i]))
  }

  lemma PrintIsOneLine(e: Entry)
    requires OneLine(e.name) && OneLine(e.value)
    ensures OneLine(Print(e))
  {
  }

  lemma FirstLine(line: string, rest: string)
    requires OneLine(line)
    ensures SplitLines(line + ['\n'] + rest) == [line] + SplitLines(rest)
  {
    var text := line + ['\n'] + rest;
    assert forall i :: 0 <= i < |line| ==> text[i] == line[i];
    assert text[|line|] == '\n';
    assert FirstBreak(text) == |line|;
    assert text[..|line|] == line && text[|line| + 1..] == rest;
  }

  lemma {:induction false} FileSplits(entries: seq<Entry>)
    requires forall i :: 0 <= i < |entries| ==> OneLine(entries[i].name) && OneLine(entries[i].value)
    ensures SplitLines(PrintFile(entries)) == Lines(entries)
  {
    if entries != [] {
      var line := Print(entries[0]);
      FileSplits(entries[1..]);
      PrintIsOneLine(entries[0]);
      FirstLine(line, PrintFile(entries[1..]));
      assert Lines(entries) == [line] + Lines(entries[1..]);
    }
  }

  /** The dictionary of the entries, later ones replacing earlier ones. */
  function Dictionary(entries: seq<Entry>): map<string, string> {
    if entries == [] then map[]
    else
      var last := entries[|entries| - 1];
      Dictionary(entries[..|entries| - 1])[last.name := last.value]
  }

  lemma {:induction false} AssignmentsLoad(parsed: seq<Line>, entries: seq<Entry>)
    requires |parsed| == |entries|
    requires forall i :: 0 <= i < |entries| ==> parsed[i] == Assignment(entries[i].name, entries[i].value)
    ensures Load(parsed) == Values(Dictionary(entries))
  {
    if entries != [] { AssignmentsLoad(parsed[..|parsed| - 1], entries[..|entries| - 1]); }
  }

  /** Loading undoes printing, with or without `export`, for all readable names and all values without
      line breaks. */
  lemma LoadUndoesPrint(entries: seq<Entry>)
    requires forall i :: 0 <= i < |entries| ==>
               Readable(entries[i]) && OneLine(entries[i].name) && OneLine(entries[i].value)
    ensures LoadText(PrintFile(entries)) == Values(Dictionary(entries))
  {
    FileSplits(entries);
    TranslationKeepsLines(PrintFile(entries));
    var parsed := ParseLines(Lines(entries));
    forall i | 0 <= i < |entries| ensures parsed[i] == Assignment(entries[i].name, entries[i].value) {
      LineUndoesPrintExactly(entries[i]);
    }
    AssignmentsLoad(parsed, entries);
  }
}
