/** The duplicate-free Set-Cookie attribute parser and the cookie-clearing contract built on it. */
module Cookies {
  import opened Common
  import opened Text
  import opened Collections

  /** Attribute values by folded name; a flag such as HttpOnly maps to None. */
  type Attributes = map<string, Option<string>>

  // ----- parsing one header -----

  /** str.casefold of one character, exact wherever the result is ASCII; every other character folds to
      something non-ASCII, which the token test rejects as it rejects the character itself. */
  function FoldChar(c: char): string {
    if 'A' <= c <= 'Z' then [c + ' ']
    else if c == '\U{17F}' then "s"
    else if c == '\U{212A}' then "k"
    else if c == '\U{DF}' || c == '\U{1E9E}' then "ss"
    else if c == '\U{FB00}' then "ff"
    else if c == '\U{FB01}' then "fi"
    else if c == '\U{FB02}' then "fl"
    else if c == '\U{FB03}' then "ffi"
    else if c == '\U{FB04}' then "ffl"
    else if c == '\U{FB05}' || c == '\U{FB06}' then "st"
    else [c]
  }

  function CaseFold(s: string): string {
    if s == [] then [] else FoldChar(s[0]) + CaseFold(s[1..])
  }

  predicate TokenChar(c: char) {
    || '0' <= c <= '9' || 'A' <= c <= 'Z' || 'a' <= c <= 'z'
    || c in "!#$%&'*+.^_`|~-"
  }

  predicate Token(s: string) {
    s != [] && TokenChars(s)
  }

  predicate OneLine(s: string) {
    '\r' !in s && '\n' !in s
  }

  /** One attribute on top of those already read; None rejects the header. */
  function AddAttribute(raw: string, seen: Attributes): Option<Attributes> {
    var attribute := Strip(raw);
    if attribute == "" then None
    else
      var (rawName, hasValue, rawValue) := Partition(attribute, '=');
      var name := CaseFold(Strip(rawName));
      if !Token(name) || name in seen then None
      else Some(seen[name := if hasValue then Some(Strip(rawValue)) else None])
  }

  function AddAttributes(raws: seq<string>, seen: Attributes): Option<Attributes> {
    if raws == [] then Some(seen)
    else
      match AddAttribute(raws[0], seen)
      case None => None
      case Some(more) => AddAttributes(raws[1..], more)
  }

  /** The header is on one line and its cookie pair has this name. */
  predicate Names(header: string, name: string) {
    && OneLine(header)
    && var (cookie, found, _) := Partition(Strip(Split(header, ';')[0]), '=');
       found && cookie == name
  }

  function Parse(header: string, name: string): Option<Attributes> {
    if !Names(header, name) then None else AddAttributes(Split(header, ';')[1..], map[])
  }

  method ParseSetCookieAttributes(header: string, name: string) returns (result: Option<Attributes>)
    ensures result == Parse(header, name)
  {
    if '\r' in header || '\n' in header { return None; }
    var parts := Split(header, ';');
    var (cookieName, separator, _) := Partition(Strip(parts[0]), '=');
    if !separator || cookieName != name { return None; }
    var attributes: Attributes := map[];
    var i := 1;
    while i < |parts|
      invariant 1 <= i <= |parts|
      invariant AddAttributes(parts[1..], map[]) == AddAttributes(parts[i..], attributes)
    {
      var attribute := Strip(parts[i]);
      if attribute == "" { return None; }
      var (rawName, hasValue, rawValue) := Partition(attribute, '=');
      var attributeName := CaseFold(Strip(rawName));
      if !Token(attributeName) || attributeName in attributes { return None; }
      attributes := attributes[attributeName := if hasValue then Some(Strip(rawValue)) else None];
      assert parts[i..][1..] == parts[i + 1..];
      i := i + 1;
    }
    return Some(attributes);
  }

  // ----- printing and parsing back -----

  /** An attribute with the white space written around it, its name and its value. */
  datatype Attribute = Attribute(name: string, value: Option<string>,
                                 before: string, left: string, right: string, after: string)

  predicate Padding(s: string) { Blank(s) && OneLine(s) }

  predicate PrintableAttribute(a: Attribute) {
    && Token(a.name) && Padding(a.before) && Padding(a.left) && Padding(a.right) && Padding(a.after)
    && (a.value.Some? ==> Trimmed(a.value.value) && OneLine(a.value.value) && ';' !in a.value.value)
  }

  predicate PrintableCookie(name: string, value: string) {
    && OneLine(name) && ';' !in name && '=' !in name && (name == "" || !IsSpace(name[0]))
    && OneLine(value) && ';' !in value
  }

  function PrintAttribute(a: Attribute): string {
    match a.value
    case None => a.before + (a.name + a.after)
    case Some(v) => a.before + ((a.name + a.left) + (['='] + (a.right + (v + a.after))))
  }

  function PrintAll(attributes: seq<Attribute>): seq<string> {
    if attributes == [] then [] else [PrintAttribute(attributes[0])] + PrintAll(attributes[1..])
  }

  function Pair(name: string, value: string): string { name + (['='] + value) }

  /** The cookie pair and its attributes, each after a semicolon. */
  function Print(name: string, value: string, attributes: seq<Attribute>): string {
    Join([Pair(name, value)] + PrintAll(attributes), ';')
  }

  /** The dictionary of the attributes, or None when two of them have the same folded name. */
  function Collect(attributes: seq<Attribute>, seen: Attributes): Option<Attributes> {
    if attributes == [] then Some(seen)
    else
      var name := CaseFold(attributes[0].name);
      if name in seen then None else Collect(attributes[1..], seen[name := attributes[0].value])
  }

  lemma FoldedTokenChar(c: char)
    requires TokenChar(c)
    ensures |FoldChar(c)| == 1 && TokenChar(FoldChar(c)[0])
  {
  }

  predicate TokenChars(s: string) {
    forall i :: 0 <= i < |s| ==> TokenChar(s[i])
  }

  lemma {:induction false} FoldedTokenIsToken(s: string)
    requires TokenChars(s)
    ensures |CaseFold(s)| == |s| && TokenChars(CaseFold(s))
  {
    if s != [] {
      FoldedTokenChar(s[0]);
      FoldedTokenIsToken(s[1..]);
    }
  }

  lemma TokenIsPlain(s: string)
    requires Token(s)
    ensures Trimmed(s) && OneLine(s) && ';' !in s && '=' !in s
  {
    assert forall i :: 0 <= i < |s| ==> !IsSpace(s[i]) && s[i] != ';' && s[i] != '=' && s[i] != '\r' && s[i] != '\n';
  }

  lemma PaddedValueStrips(right: string, value: string, after: string)
    requires Blank(right) && Trimmed(value) && Blank(after)
    ensures Strip(RStrip(right + (value + after))) == value
  {
    if value == [] {
      assert right + (value + after) == right + after;
      assert Blank(right + after);
      RStripOfBlank(right + after);
    } else {
      assert right + (value + after) == (right + value) + after;
      RStripPadded(right + value, after);
      StripPadded(right, value, []);
      assert value + [] == value;
    }
  }

  lemma PaddedNameStrips(name: string, left: string)
    requires Token(name) && Blank(left)
    ensures Strip(name + left) == name && '=' !in name + left
  {
    TokenIsPlain(name);
    StripPadded([], name, left);
    assert [] + (name + left) == name + left;
  }

  /** The text up to the equals sign, then the stripped rest. */
  lemma StrippedPartition(head: string, rest: string)
    requires (head == [] || !IsSpace(head[0])) && '=' !in head
    ensures Partition(Strip(head + (['='] + rest)), '=') == (head, true, RStrip(rest))
    ensures Strip(head + (['='] + rest)) != "" && LStrip(head + (['='] + rest)) == head + (['='] + rest)
  {
    var body := head + ['='];
    ConcatAssociates(head, ['='], rest);
    assert body[|body| - 1] == '=' && !IsSpace('=');
    assert (body + rest)[0] == if head == [] then '=' else head[0];
    LStripKeeps(body + rest);
    RStripAfter(body, rest);
    PartitionPrinted(head, '=', RStrip(rest));
  }

  lemma PaddedPartition(before: string, head: string, rest: string)
    requires Blank(before) && (head == [] || !IsSpace(head[0])) && '=' !in head
    ensures Partition(Strip(before + (head + (['='] + rest))), '=') == (head, true, RStrip(rest))
    ensures Strip(before + (head + (['='] + rest))) != ""
  {
    LStripBlank(before, head + (['='] + rest));
    StrippedPartition(head, rest);
  }

  lemma PrintedFlagAdds(a: Attribute, seen: Attributes)
    requires PrintableAttribute(a) && a.value.None?
    ensures AddAttribute(PrintAttribute(a), seen) ==
            if CaseFold(a.name) in seen then None else Some(seen[CaseFold(a.name) := None])
  {
    TokenIsPlain(a.name);
    FoldedTokenIsToken(a.name);
    StripPadded(a.before, a.name, a.after);
    assert Partition(a.name, '=') == (a.name, false, []);
  }

  lemma PrintedValueAdds(a: Attribute, seen: Attributes)
    requires PrintableAttribute(a) && a.value.Some?
    ensures AddAttribute(PrintAttribute(a), seen) ==
            if CaseFold(a.name) in seen then None else Some(seen[CaseFold(a.name) := a.value])
  {
    var v := a.value.value;
    TokenIsPlain(a.name);
    FoldedTokenIsToken(a.name);
    PaddedNameStrips(a.name, a.left);
    PaddedPartition(a.before, a.name + a.left, a.right + (v + a.after));
    PaddedValueStrips(a.right, v, a.after);
  }

  lemma PrintedAttributeAdds(a: Attribute, seen: Attributes)
    requires PrintableAttribute(a)
    ensures AddAttribute(PrintAttribute(a), seen) ==
            if CaseFold(a.name) in seen then None else Some(seen[CaseFold(a.name) := a.value])
  {
    if a.value.None? { PrintedFlagAdds(a, seen); } else { PrintedValueAdds(a, seen); }
  }

  /** Text that a header can hold between two semicolons. */
  predicate Plain(s: string) { OneLine(s) && ';' !in s }

  lemma PlainConcat(s: string, t: string)
    requires Plain(s) && Plain(t)
    ensures Plain(s + t)
  {
  }

  lemma PaddingIsPlain(s: string)
    requires Padding(s)
    ensures Plain(s)
  {
    assert !IsSpace(';');
  }

  lemma PrintedAttributeIsPlain(a: Attribute)
    requires PrintableAttribute(a)
    ensures Plain(PrintAttribute(a))
  {
    TokenIsPlain(a.name);
    PaddingIsPlain(a.before);
    PaddingIsPlain(a.after);
    if a.value.None? {
      PlainConcat(a.name, a.after);
      PlainConcat(a.before, a.name + a.after);
    } else {
      var v := a.value.value;
      PaddingIsPlain(a.left);
      PaddingIsPlain(a.right);
      PlainConcat(v, a.after);
      PlainConcat(a.right, v + a.after);
      PlainConcat(['='], a.right + (v + a.after));
      PlainConcat(a.name, a.left);
      PlainConcat(a.name + a.left, ['='] + (a.right + (v + a.after)));
      PlainConcat(a.before, (a.name + a.left) + (['='] + (a.right + (v + a.after))));
    }
  }

  predicate AllPlain(parts: seq<string>) {
    forall i :: 0 <= i < |parts| ==> Plain(parts[i])
  }

  lemma {:induction false} PrintedAllPlain(attributes: seq<Attribute>)
    requires forall i :: 0 <= i < |attributes| ==> PrintableAttribute(attributes[i])
    ensures AllPlain(PrintAll(attributes))
  {
    if attributes != [] {
      PrintedAttributeIsPlain(attributes[0]);
      PrintedAllPlain(attributes[1..]);
    }
  }

  lemma {:induction false} PrintedAttributesCollect(attributes: seq<Attribute>, seen: Attributes)
    requires forall i :: 0 <= i < |attributes| ==> PrintableAttribute(attributes[i])
    ensures AddAttributes(PrintAll(attributes), seen) == Collect(attributes, seen)
  {
    if attributes != [] {
      var a, rest := attributes[0], attributes[1..];
      PrintedAttributeAdds(a, seen);
      PrintedAttributesCollect(rest, if CaseFold(a.name) in seen then seen else seen[CaseFold(a.name) := a.value]);
      assert PrintAll(attributes)[1..] == PrintAll(rest);
    }
  }

  lemma {:induction false} JoinOneLine(parts: seq<string>)
    requires |parts| >= 1 && forall i :: 0 <= i < |parts| ==> OneLine(parts[i])
    ensures OneLine(Join(parts, ';'))
  {
    if |parts| > 1 { JoinOneLine(parts[1..]); }
  }

  lemma PrintedCookieNames(name: string, value: string)
    requires PrintableCookie(name, value)
    ensures var (cookie, found, _) := Partition(Strip(Pair(name, value)), '='); found && cookie == name
  {
    StrippedPartition(name, value);
  }

  /** Parsing undoes printing: the attributes come back under their folded names, and a header that
      repeats one is rejected (the grammar of section 4.1.1 of RFC 6265). */
  lemma ParseUndoesPrint(name: string, value: string, attributes: seq<Attribute>)
    requires PrintableCookie(name, value)
    requires forall i :: 0 <= i < |attributes| ==> PrintableAttribute(attributes[i])
    ensures Parse(Print(name, value, attributes), name) == Collect(attributes, map[])
  {
    PrintedParts(name, value, attributes);
    PrintedCookieNames(name, value);
    PrintedAttributesCollect(attributes, map[]);
    assert ([Pair(name, value)] + PrintAll(attributes))[1..] == PrintAll(attributes);
  }

  lemma PrintedParts(name: string, value: string, attributes: seq<Attribute>)
    requires PrintableCookie(name, value)
    requires forall i :: 0 <= i < |attributes| ==> PrintableAttribute(attributes[i])
    ensures Split(Print(name, value, attributes), ';') == [Pair(name, value)] + PrintAll(attributes)
    ensures OneLine(Print(name, value, attributes))
  {
    var parts := [Pair(name, value)] + PrintAll(attributes);
    PrintedAllPlain(attributes);
    forall i | 0 <= i < |parts| ensures Plain(parts[i]) {
      if i > 0 { assert parts[i] == PrintAll(attributes)[i - 1]; }
    }
    SplitJoin(parts, ';');
    JoinOneLine(parts);
  }

  /** Collect succeeds exactly on attributes whose folded names are distinct, and then holds each of them. */
  lemma {:induction false} CollectExactly(attributes: seq<Attribute>, seen: Attributes)
    ensures Collect(attributes, seen).Some? <==>
            && (forall i :: 0 <= i < |attributes| ==> CaseFold(attributes[i].name) !in seen)
            && (forall i, j :: 0 <= i < j < |attributes| ==>
                  CaseFold(attributes[i].name) != CaseFold(attributes[j].name))
    ensures Collect(attributes, seen).Some? ==>
              && (forall i :: 0 <= i < |attributes| ==>
                    CaseFold(attributes[i].name) in Collect(attributes, seen).value
                    && Collect(attributes, seen).value[CaseFold(attributes[i].name)] == attributes[i].value)
              && (forall n :: n in seen ==>
                    n in Collect(attributes, seen).value && Collect(attributes, seen).value[n] == seen[n])
  {
    if attributes != [] {
      var a, rest := attributes[0], attributes[1..];
      var name := CaseFold(a.name);
      if name !in seen {
        var more := seen[name := a.value];
        CollectExactly(rest, more);
        assert forall i :: 1 <= i < |attributes| ==> attributes[i] == rest[i - 1];
        assert forall i :: 0 <= i < |rest| ==> rest[i] == attributes[i + 1];
      }
    }
  }
}
