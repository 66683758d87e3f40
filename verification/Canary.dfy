/** The privacy scan of a gate's report: a canary is reported when it occurs in the report's JSON text,
    which is ASCII only and escapes some characters (section 7 of RFC 8259). */
module Canary {
  import opened Collections
  import opened Text

  /** Everything JSON writes without quotes: null, true, false and the numbers. */
  type BareText = s: string | forall i :: 0 <= i < |s| ==> IsBare(s[i]) witness "null"

  predicate IsBare(c: char) {
    '0' <= c <= '9' || 'a' <= c <= 'z' || 'A' <= c <= 'Z' || c == '-' || c == '+' || c == '.'
  }

  datatype Json = Bare(bare: BareText) | Str(text: string) | Arr(items: seq<Json>) | Obj(fields: seq<Field>)

  datatype Field = Field(key: string, value: Json)

  predicate IsPrintable(c: char) { ' ' <= c <= '~' }

  /** The characters a JSON string holds as they are. */
  predicate IsUnescaped(c: char) { IsPrintable(c) && c != '"' && c != '\\' }

  function HexDigit(n: nat): (c: char)
    requires n < 16
    ensures IsLowerHex(c)
  {
    if n < 10 then '0' + n as char else 'a' + (n - 10) as char
  }

  function Hex4(n: nat): (s: string)
    requires n < 0x1_0000
    ensures |s| == 4 && forall i :: 0 <= i < |s| ==> IsLowerHex(s[i])
  {
    [HexDigit(n / 0x1000), HexDigit(n / 0x100 % 16), HexDigit(n / 16 % 16), HexDigit(n % 16)]
  }

  /** What follows the backslash in the escape of c; a code point beyond the basic plane is written as
      two surrogates, the second with its own backslash. */
  function EscapeTail(c: char): string
    requires !IsUnescaped(c)
  {
    match c
    case '"' => "\""
    case '\\' => "\\"
    case '\n' => "n"
    case '\r' => "r"
    case '\t' => "t"
    case '\U{0C}' => "f"
    case '\U{08}' => "b"
    case _ =>
      var n := c as int;
      if n < 0x1_0000 then "u" + Hex4(n)
      else "u" + Hex4(0xD800 + (n - 0x1_0000) / 0x400) + "\\u" + Hex4(0xDC00 + (n - 0x1_0000) % 0x400)
  }

  function Escape(c: char): string {
    if IsUnescaped(c) then [c] else ['\\'] + EscapeTail(c)
  }

  function Escaped(s: string): string {
    FlatMap(s, Escape)
  }

  function Quoted(s: string): string {
    ['"'] + (Escaped(s) + ['"'])
  }

  /** json.dumps with its default separators. The fields are written in the order given, which is the
      sorted one. */
  function Serialise(j: Json): string
    decreases j
  {
    match j
    case Bare(bare) => bare
    case Str(text) => Quoted(text)
    case Arr(items) => ['['] + (SerialiseItems(items) + [']'])
    case Obj(fields) => ['{'] + (SerialiseFields(fields) + ['}'])
  }

  function SerialiseItems(items: seq<Json>): string
    decreases items, 0
  {
    if items == [] then "" else Serialise(items[0]) + MoreItems(items[1..])
  }

  function MoreItems(items: seq<Json>): string
    decreases items, 1
  {
    if items == [] then "" else [','] + ([' '] + SerialiseItems(items))
  }

  function SerialiseFields(fields: seq<Field>): string
    decreases fields, 0
  {
    if fields == [] then ""
    else Quoted(fields[0].key) + ([':'] + ([' '] + (Serialise(fields[0].value) + MoreFields(fields[1..]))))
  }

  function MoreFields(fields: seq<Field>): string
    decreases fields, 1
  {
    if fields == [] then "" else [','] + ([' '] + SerialiseFields(fields))
  }

  /** The indices the scan reports, in order. */
  function Hits(payload: Json, canaries: seq<string>): seq<nat> {
    if canaries == [] then []
    else
      var last := |canaries| - 1;
      Hits(payload, canaries[..last])
      + if canaries[last] != "" && Contains(Serialise(payload), canaries[last]) then [last] else []
  }

  /** The canary occurs inside a key or a string value. */
  predicate InString(j: Json, canary: string)
    decreases j
  {
    match j
    case Bare(_) => false
    case Str(text) => Contains(text, canary)
    case Arr(items) => InItems(items, canary)
    case Obj(fields) => InFields(fields, canary)
  }

  predicate InItems(items: seq<Json>, canary: string)
    decreases items
  {
    items != [] && (InString(items[0], canary) || InItems(items[1..], canary))
  }

  predicate InFields(fields: seq<Field>, canary: string)
    decreases fields
  {
    fields != []
    && (Contains(fields[0].key, canary) || InString(fields[0].value, canary) || InFields(fields[1..], canary))
  }

  // ----- escaping -----

  predicate Printable(s: string) {
    forall i :: 0 <= i < |s| ==> IsPrintable(s[i])
  }

  predicate Unescaped(s: string) {
    forall i :: 0 <= i < |s| ==> IsUnescaped(s[i])
  }

  lemma EscapeTailIsPrintable(c: char)
    requires !IsUnescaped(c)
    ensures Printable(EscapeTail(c)) && ' ' !in EscapeTail(c)
  {
  }

  lemma {:induction false} EscapedIsPrintable(s: string)
    ensures Printable(Escaped(s))
  {
    if s != [] {
      EscapedIsPrintable(s[1..]);
      if !IsUnescaped(s[0]) { EscapeTailIsPrintable(s[0]); }
      assert Printable(Escape(s[0]));
    }
  }

  // ----- what is always found, and what never is -----

  /** The canary occurs in its own escaped form. */
  predicate SurvivesEscape(canary: string) {
    Contains(Escaped(canary), canary)
  }

  /** A canary of characters JSON never escapes survives. */
  lemma UnescapedSurvives(canary: string)
    requires Unescaped(canary)
    ensures SurvivesEscape(canary)
  {
    FlatMapUnits(canary, Escape);
    assert canary[0..0 + |canary|] == canary;
    assert OccursAt(canary, 0, canary);
  }

  lemma FoundInQuoted(text: string, canary: string)
    requires SurvivesEscape(canary) && Contains(text, canary)
    ensures Contains(Quoted(text), canary)
  {
    var before, after := ContainsSplits(text, canary);
    FlatMapAppend(before + canary, after, Escape);
    FlatMapAppend(before, canary, Escape);
    ContainsInContext(Escaped(before), Escaped(canary), Escaped(after), canary);
    ContainsInHead(Escaped(text), ['"'], canary);
    ContainsInTail(['"'], Escaped(text) + ['"'], canary);
  }

  /** For every tree, a canary that survives its own escaping is in the text whenever it is inside any
      string of the tree, key or value. */
  lemma {:induction false} FoundWhenInString(j: Json, canary: string)
    requires SurvivesEscape(canary) && InString(j, canary)
    ensures Contains(Serialise(j), canary)
    decreases j
  {
    match j
    case Str(text) => FoundInQuoted(text, canary);
    case Arr(items) =>
      FoundInItems(items, canary);
      ContainsInHead(SerialiseItems(items), [']'], canary);
      ContainsInTail(['['], SerialiseItems(items) + [']'], canary);
    case Obj(fields) =>
      FoundInFields(fields, canary);
      ContainsInHead(SerialiseFields(fields), ['}'], canary);
      ContainsInTail(['{'], SerialiseFields(fields) + ['}'], canary);
  }

  lemma {:induction false} FoundInItems(items: seq<Json>, canary: string)
    requires SurvivesEscape(canary) && InItems(items, canary)
    ensures Contains(SerialiseItems(items), canary)
    decreases items
  {
    var head, rest := Serialise(items[0]), items[1..];
    if InString(items[0], canary) {
      FoundWhenInString(items[0], canary);
      ContainsInHead(head, MoreItems(rest), canary);
    } else {
      FoundInItems(rest, canary);
      ContainsInTail([' '], SerialiseItems(rest), canary);
      ContainsInTail([','], [' '] + SerialiseItems(rest), canary);
      ContainsInTail(head, MoreItems(rest), canary);
    }
  }

  lemma {:induction false} FoundInFields(fields: seq<Field>, canary: string)
    requires SurvivesEscape(canary) && InFields(fields, canary)
    ensures Contains(SerialiseFields(fields), canary)
    decreases fields
  {
    var key, value, rest := Quoted(fields[0].key), Serialise(fields[0].value), fields[1..];
    var more := MoreFields(rest);
    if Contains(fields[0].key, canary) {
      FoundInQuoted(fields[0].key, canary);
      ContainsInHead(key, [':'] + ([' '] + (value + more)), canary);
    } else {
      if InString(fields[0].value, canary) {
        FoundWhenInString(fields[0].value, canary);
        ContainsInHead(value, more, canary);
      } else {
        FoundInFields(rest, canary);
        ContainsInTail([' '], SerialiseFields(rest), canary);
        ContainsInTail([','], [' '] + SerialiseFields(rest), canary);
        ContainsInTail(value, more, canary);
      }
      ContainsInTail([' '], value + more, canary);
      ContainsInTail([':'], [' '] + (value + more), canary);
      ContainsInTail(key, [':'] + ([' '] + (value + more)), canary);
    }
  }

  lemma PrintableConcat(s: string, t: string)
    requires Printable(s) && Printable(t)
    ensures Printable(s + t)
  {
  }

  lemma QuotedIsPrintable(s: string)
    ensures Printable(Quoted(s))
  {
    EscapedIsPrintable(s);
  }

  lemma {:induction false} TextIsPrintable(j: Json)
    ensures Printable(Serialise(j))
    decreases j
  {
    match j
    case Bare(_) =>
    case Str(text) => QuotedIsPrintable(text);
    case Arr(items) => ItemsArePrintable(items);
    case Obj(fields) => FieldsArePrintable(fields);
  }

  lemma {:induction false} ItemsArePrintable(items: seq<Json>)
    ensures Printable(SerialiseItems(items))
    decreases items
  {
    if items != [] {
      TextIsPrintable(items[0]);
      ItemsArePrintable(items[1..]);
    }
  }

  lemma {:induction false} FieldsArePrintable(fields: seq<Field>)
    ensures Printable(SerialiseFields(fields))
    decreases fields
  {
    if fields != [] {
      var key, value, more := Quoted(fields[0].key), Serialise(fields[0].value), MoreFields(fields[1..]);
      QuotedIsPrintable(fields[0].key);
      TextIsPrintable(fields[0].value);
      FieldsArePrintable(fields[1..]);
      PrintableConcat([' '], SerialiseFields(fields[1..]));
      PrintableConcat([','], [' '] + SerialiseFields(fields[1..]));
      PrintableConcat(value, more);
      PrintableConcat([' '], value + more);
      PrintableConcat([':'], [' '] + (value + more));
      PrintableConcat(key, [':'] + ([' '] + (value + more)));
    }
  }

  lemma PartIsPrintable(text: string, part: string)
    requires Printable(text) && Contains(text, part)
    ensures Printable(part)
  {
  }

  /** A canary holding a character the text always escapes, such as a tab or a newline, is never reported,
      however the tree holds it. */
  lemma NeverFound(j: Json, canary: string)
    requires !Printable(canary)
    ensures !Contains(Serialise(j), canary)
  {
    TextIsPrintable(j);
    if Contains(Serialise(j), canary) { PartIsPrintable(Serialise(j), canary); }
  }

  /** An occurrence that can use neither the second character nor the last but one starts after the one and
      ends before the other. */
  lemma OffTheEnds(whole: string, i: nat, canary: string)
    requires |canary| >= 2 && OccursAt(whole, i, canary)
    requires whole[1] != canary[0] && whole[1] != canary[1]
    requires whole[|whole| - 2] != canary[|canary| - 1] && whole[|whole| - 2] != canary[|canary| - 2]
    ensures 2 <= i && i + |canary| <= |whole| - 2
  {
    var n := |canary|;
    OccursChars(whole, i, canary);
    assert whole[i + 0] == canary[0] && whole[i + 1] == canary[1];
    assert whole[i + (n - 1)] == canary[n - 1] && whole[i + (n - 2)] == canary[n - 2];
  }

  lemma OccursInside(before: string, inside: string, after: string, i: nat, sub: string)
    requires |before| <= i && i + |sub| <= |before| + |inside| && OccursAt(before + (inside + after), i, sub)
    ensures Contains(inside, sub)
  {
    var k := i - |before|;
    assert (before + (inside + after))[i..i + |sub|] == inside[k..k + |sub|];
    assert OccursAt(inside, k, sub);
  }

  /** Between two characters that the canary has neither at nor next to its ends, only the inside of the
      quotes can hold it. */
  lemma OnlyBetween(p: char, inside: string, canary: string)
    requires |canary| >= 2 && p != canary[0] && p != canary[1]
    requires p != canary[|canary| - 1] && p != canary[|canary| - 2]
    requires Contains(['"'] + (([p] + (inside + [p])) + ['"']), canary)
    ensures Contains(inside, canary)
  {
    var whole := ['"'] + (([p] + (inside + [p])) + ['"']);
    var i :| 0 <= i <= |whole| && OccursAt(whole, i, canary);
    assert whole == ['"', p] + (inside + [p, '"']);
    OffTheEnds(whole, i, canary);
    OccursInside(['"', p], inside, [p, '"'], i, canary);
  }

  lemma EscapedBetween(p: char, s: string)
    requires IsUnescaped(p)
    ensures Escaped([p] + (s + [p])) == [p] + (Escaped(s) + [p])
  {
    FlatMapCons(p, s + [p], Escape);
    FlatMapAppend(s, [p], Escape);
    FlatMapOne(p, Escape);
  }

  /** A single printable character survives. */
  lemma OneSurvives(canary: string)
    requires |canary| == 1 && Printable(canary)
    ensures SurvivesEscape(canary)
  {
    var c := canary[0];
    assert canary == [c];
    FlatMapOne(c, Escape);
    if IsUnescaped(c) {
      UnescapedSurvives(canary);
    } else {
      assert EscapeTail(c) == canary;
      assert OccursAt(canary, 0, canary);
      ContainsInTail(['\\'], canary, canary);
    }
  }

  /** An unescaped character that the canary has neither at nor next to its ends. */
  function Around(canary: string): (p: char)
    requires |canary| >= 2
    ensures IsUnescaped(p) && p != canary[0] && p != canary[1]
    ensures p != canary[|canary| - 1] && p != canary[|canary| - 2]
  {
    var n := |canary|;
    var ends := [canary[0], canary[1], canary[n - 2], canary[n - 1]];
    if 'a' !in ends then 'a' else if 'b' !in ends then 'b' else if 'c' !in ends then 'c'
    else if 'd' !in ends then 'd' else 'e'
  }

  /** A string that holds the canary but hides it from the scan, if any string does. */
  function Hiding(canary: string): Json {
    if Printable(canary) && |canary| >= 2 then Str([Around(canary)] + (canary + [Around(canary)])) else Str(canary)
  }

  lemma HidingHolds(canary: string)
    ensures InString(Hiding(canary), canary)
  {
    assert OccursAt(canary, 0, canary);
    if Printable(canary) && |canary| >= 2 {
      var p := [Around(canary)];
      ContainsInHead(canary, p, canary);
      ContainsInTail(p, canary + p, canary);
    }
  }

  lemma HidingHides(canary: string)
    requires !SurvivesEscape(canary)
    ensures !Contains(Serialise(Hiding(canary)), canary)
  {
    var j := Hiding(canary);
    if !Printable(canary) {
      NeverFound(j, canary);
    } else if |canary| < 2 {
      if |canary| == 1 { OneSurvives(canary); } else { UnescapedSurvives(canary); }
    } else {
      var p := Around(canary);
      EscapedBetween(p, canary);
      if Contains(Serialise(j), canary) { OnlyBetween(p, Escaped(canary), canary); }
    }
  }

  // ----- the scan over a list -----

  /** The scan reports exactly the places of the nonempty canaries that are in the text. */
  lemma {:induction false} HitsExactly(payload: Json, canaries: seq<string>, k: nat)
    ensures k in Hits(payload, canaries) <==>
              k < |canaries| && canaries[k] != "" && Contains(Serialise(payload), canaries[k])
  {
    if canaries != [] { HitsExactly(payload, canaries[..|canaries| - 1], k); }
  }

  /** A canary of a list is reported for every report with a string that holds it, exactly when it is not
      empty and survives its own escaping. */
  lemma AlwaysReportedExactly(canaries: seq<string>, k: nat)
    requires k < |canaries|
    ensures (forall payload :: InString(payload, canaries[k]) ==> k in Hits(payload, canaries))
            <==> canaries[k] != "" && SurvivesEscape(canaries[k])
  {
    var canary := canaries[k];
    if canary != "" && SurvivesEscape(canary) {
      forall payload | InString(payload, canary) ensures k in Hits(payload, canaries) {
        FoundWhenInString(payload, canary);
        HitsExactly(payload, canaries, k);
      }
    } else {
      HidingHolds(canary);
      if canary != "" { HidingHides(canary); }
      HitsExactly(Hiding(canary), canaries, k);
    }
  }

  lemma EscapedPair(c: char, d: char)
    ensures Escaped([c, d]) == Escape(c) + Escape(d)
  {
    FlatMapCons(c, [d], Escape);
    FlatMapOne(d, Escape);
    assert [c] + [d] == [c, d];
  }

  lemma PairIsAbsent(text: string, c: char, d: char)
    requires forall i :: 0 <= i < |text| - 1 && text[i] == c ==> text[i + 1] != d
    ensures !Contains(text, [c, d])
  {
    forall i | 0 <= i <= |text| ensures !OccursAt(text, i, [c, d]) {
      if i + 2 <= |text| { assert text[i..i + 2] == [text[i], text[i + 1]]; }
    }
  }

  lemma QuoteIsEscaped()
    ensures Escaped(['a', '"']) == ['a', '\\', '"']
  {
    EscapedPair('a', '"');
    assert EscapeTail('"') == ['"'];
    assert Escape('a') == ['a'] && Escape('"') == ['\\', '"'];
  }

  /** A printable canary can be missed: one that ends in a quote. */
  lemma QuoteIsMissed()
    ensures var canary := ['a', '"'];
            InString(Str(canary), canary) && 0 !in Hits(Str(canary), [canary])
  {
    var canary := ['a', '"'];
    var text := Serialise(Str(canary));
    QuoteIsEscaped();
    assert text == ['"', 'a', '\\', '"', '"'];
    assert OccursAt(canary, 0, canary);
    PairIsAbsent(text, 'a', '"');
    HitsExactly(Str(canary), [canary], 0);
  }

  /** And one that JSON escapes can be found: a leading backslash is doubled. */
  lemma BackslashIsFound()
    ensures var canary := ['\\', 'a'];
            !Unescaped(canary) && SurvivesEscape(canary)
  {
    var canary := ['\\', 'a'];
    EscapedPair('\\', 'a');
    assert Escaped(canary) == ['\\', '\\', 'a'];
    assert OccursAt(Escaped(canary), 1, canary);
  }

  // ----- the space-padded secret is found exactly when a string holds it -----

  predicate IsBreaker(c: char) {
    c == '"' || c == '\\' || c == ',' || c == ':' || c == '[' || c == ']' || c == '{' || c == '}'
  }

  /** Two or more characters, the first and last of them spaces, none of them escaped or structural. */
  predicate Padded(canary: string) {
    && |canary| >= 2 && canary[0] == ' ' && canary[|canary| - 1] == ' '
    && Unescaped(canary) && forall i :: 0 <= i < |canary| ==> !IsBreaker(canary[i])
  }

  function FirstEscaped(s: string): (n: nat)
    ensures n <= |s| && Unescaped(s[..n]) && (n < |s| ==> !IsUnescaped(s[n]))
  {
    if s == [] || !IsUnescaped(s[0]) then 0
    else
      var n := FirstEscaped(s[1..]);
      assert s[..n + 1] == [s[0]] + s[1..][..n];
      n + 1
  }

  lemma EscapedAt(s: string, n: nat)
    requires n < |s| && Unescaped(s[..n]) && !IsUnescaped(s[n])
    ensures Escaped(s) == s[..n] + (['\\'] + (EscapeTail(s[n]) + Escaped(s[n + 1..])))
  {
    FlatMapAt(s, n, Escape);
    FlatMapUnits(s[..n], Escape);
    ConcatAssociates(['\\'], EscapeTail(s[n]), Escaped(s[n + 1..]));
  }

  lemma AroundEscape(plain: string, tail: string, rest: string, canary: string)
    requires Padded(canary) && ' ' !in tail && Contains(plain + (['\\'] + (tail + rest)), canary)
    ensures Contains(plain, canary) || Contains(rest, canary)
  {
    ContainsAround(plain, '\\', tail + rest, canary);
    if Contains(tail + rest, canary) { ContainsPastHead(tail, rest, canary); }
  }

  lemma ContainsInSlices(s: string, n: nat, sub: string)
    requires n < |s| && (Contains(s[..n], sub) || Contains(s[n + 1..], sub))
    ensures Contains(s, sub)
  {
    if Contains(s[..n], sub) {
      ContainsInHead(s[..n], s[n..], sub);
      assert s == s[..n] + s[n..];
    } else {
      ContainsInTail(s[..n + 1], s[n + 1..], sub);
      assert s == s[..n + 1] + s[n + 1..];
    }
  }

  lemma PlainOrRest(s: string, n: nat, canary: string)
    requires n == FirstEscaped(s) < |s| && Padded(canary) && Contains(Escaped(s), canary)
    ensures Contains(s[..n], canary) || Contains(Escaped(s[n + 1..]), canary)
  {
    EscapedAt(s, n);
    EscapeTailIsPrintable(s[n]);
    AroundEscape(s[..n], EscapeTail(s[n]), Escaped(s[n + 1..]), canary);
  }

  lemma {:induction false} OnlyInEscaped(s: string, canary: string)
    requires Padded(canary) && Contains(Escaped(s), canary)
    ensures Contains(s, canary)
    decreases |s|
  {
    var n := FirstEscaped(s);
    if n == |s| {
      assert s[..n] == s;
      FlatMapUnits(s, Escape);
    } else {
      PlainOrRest(s, n, canary);
      if !Contains(s[..n], canary) { OnlyInEscaped(s[n + 1..], canary); }
      ContainsInSlices(s, n, canary);
    }
  }

  /** Between two structural characters nothing but the inside holds a padded canary. */
  lemma OnlyInside(open: char, inside: string, close: char, canary: string)
    requires Padded(canary) && IsBreaker(open) && IsBreaker(close)
    requires Contains([open] + (inside + [close]), canary)
    ensures Contains(inside, canary)
  {
    ContainsPastHead([open], inside + [close], canary);
    ContainsBeforeTail(inside, [close], canary);
  }

  /** The space after a separator starts no occurrence: what follows has no second space before its first
      structural character. */
  lemma SpaceStartsNone(text: string, canary: string)
    requires Padded(canary) && text != [] && IsBreaker(text[0])
    requires Contains([' '] + text, canary)
    ensures Contains(text, canary)
  {
    var first, rest := text[0], text[1..];
    assert text == [first] + rest;
    ContainsAround([' '], first, rest, canary);
    ContainsInTail([first], rest, canary);
  }

  lemma SpaceBeforeValue(j: Json, canary: string)
    requires Padded(canary) && Contains([' '] + Serialise(j), canary)
    ensures Contains(Serialise(j), canary)
  {
    if j.Bare? {
      ContainsBeforeTail([' '], j.bare, canary);
    } else {
      SpaceStartsNone(Serialise(j), canary);
    }
  }

  lemma OnlyInQuoted(text: string, canary: string)
    requires Padded(canary) && Contains(Quoted(text), canary)
    ensures Contains(text, canary)
  {
    OnlyInside('"', Escaped(text), '"', canary);
    OnlyInEscaped(text, canary);
  }

  lemma {:induction false} OnlyInString(j: Json, canary: string)
    requires Padded(canary) && Contains(Serialise(j), canary)
    ensures InString(j, canary)
    decreases j
  {
    match j
    case Bare(bare) =>
      assert bare + [] == bare;
      ContainsPastHead(bare, [], canary);
    case Str(text) => OnlyInQuoted(text, canary);
    case Arr(items) =>
      OnlyInside('[', SerialiseItems(items), ']', canary);
      OnlyInItems(items, canary);
    case Obj(fields) =>
      OnlyInside('{', SerialiseFields(fields), '}', canary);
      OnlyInFields(fields, canary);
  }

  /** `value` is the text of j and `more` what the list writes after it. */
  lemma ValueOrMore(value: string, more: string, canary: string)
    requires Padded(canary) && Contains(value + more, canary)
    requires more == [] || more[0] == ','
    ensures Contains(value, canary) || (|more| >= 1 && Contains(more[1..], canary))
  {
    if more == [] {
      assert value + more == value;
    } else {
      assert more == [','] + more[1..];
      ContainsAround(value, ',', more[1..], canary);
    }
  }

  lemma {:induction false} OnlyInItems(items: seq<Json>, canary: string)
    requires Padded(canary) && Contains(SerialiseItems(items), canary)
    ensures InItems(items, canary)
    decreases items, 0
  {
    if items != [] {
      var value, more := Serialise(items[0]), MoreItems(items[1..]);
      ValueOrMore(value, more, canary);
      if Contains(value, canary) {
        OnlyInString(items[0], canary);
      } else {
        assert more[1..] == [' '] + SerialiseItems(items[1..]);
        OnlyInItemsAfterSpace(items[1..], canary);
      }
    }
  }

  lemma {:induction false} OnlyInItemsAfterSpace(items: seq<Json>, canary: string)
    requires Padded(canary) && items != [] && Contains([' '] + SerialiseItems(items), canary)
    ensures InItems(items, canary)
    decreases items, 1
  {
    var value, more := Serialise(items[0]), MoreItems(items[1..]);
    assert [' '] + SerialiseItems(items) == ([' '] + value) + more;
    ValueOrMore([' '] + value, more, canary);
    if Contains([' '] + value, canary) {
      SpaceBeforeValue(items[0], canary);
      OnlyInString(items[0], canary);
    } else {
      assert more[1..] == [' '] + SerialiseItems(items[1..]);
      OnlyInItemsAfterSpace(items[1..], canary);
    }
  }

  lemma {:induction false} OnlyInFields(fields: seq<Field>, canary: string)
    requires Padded(canary) && Contains(SerialiseFields(fields), canary)
    ensures InFields(fields, canary)
    decreases fields
  {
    if fields != [] {
      var key, value, more := fields[0].key, Serialise(fields[0].value), MoreFields(fields[1..]);
      ContainsAround(Quoted(key), ':', [' '] + (value + more), canary);
      if Contains(Quoted(key), canary) {
        OnlyInQuoted(key, canary);
      } else {
        assert [' '] + (value + more) == ([' '] + value) + more;
        ValueOrMore([' '] + value, more, canary);
        if Contains([' '] + value, canary) {
          SpaceBeforeValue(fields[0].value, canary);
          OnlyInString(fields[0].value, canary);
        } else {
          assert more[1..] == [' '] + SerialiseFields(fields[1..]);
          SpaceStartsNone(SerialiseFields(fields[1..]), canary);
          OnlyInFields(fields[1..], canary);
        }
      }
    }
  }

  /** For every report and whatever canaries the scenarios add, the scan reports the space-padded
      encryption secret exactly when some string of the report holds it, and never the lookup secret, which
      is padded with a tab and a newline. */
  lemma GateScanExactly(payload: Json, encryption: string, lookup: string, more: seq<string>)
    requires Padded(encryption) && !Printable(lookup)
    ensures var hits := Hits(payload, [encryption, lookup] + more);
            (0 in hits <==> InString(payload, encryption)) && 1 !in hits
  {
    HitsExactly(payload, [encryption, lookup] + more, 0);
    HitsExactly(payload, [encryption, lookup] + more, 1);
    NeverFound(payload, lookup);
    if InString(payload, encryption) {
      UnescapedSurvives(encryption);
      FoundWhenInString(payload, encryption);
    } else if Contains(Serialise(payload), encryption) {
      OnlyInString(payload, encryption);
    }
  }
}
