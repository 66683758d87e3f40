/** The platform tag in the file name of a compiled Python extension (PEP 3149 and the short wheel form). */
module ExtensionTags {
  import opened Collections
  import opened Common
  import opened Text

  /** The Unicode digit classes: str.isdigit for one character, and \d of a regular expression. */
  datatype Digits = Digits(isDigit: char -> bool, isDecimal: char -> bool)

  predicate IsAsciiLetter(c: char) { 'a' <= c <= 'z' || 'A' <= c <= 'Z' }

  /** What the proofs need to know of Unicode: letters and the tag's punctuation are no digits. */
  ghost predicate Lawful(d: Digits) {
    forall c: char :: d.isDigit(c) || d.isDecimal(c) ==> !IsAsciiLetter(c) && c != '.' && c != '-' && c != '\n'
  }

  function LowerChar(c: char): char {
    if 'A' <= c <= 'Z' then (c as int + 32) as char else c
  }

  /** str.lower as far as the implementation names go: no other character lowers to one of their letters. */
  function Lower(s: string): (r: string)
    ensures |r| == |s| && forall i :: 0 <= i < |s| ==> r[i] == LowerChar(s[i])
  {
    seq(|s|, i requires 0 <= i < |s| => LowerChar(s[i]))
  }

  const EXT_SUFFIXES := [".so", ".pyd", ".dylib"]

  predicate LongImpl(s: string) {
    Lower(s) == "cpython" || Lower(s) == "pypy" || Lower(s) == "graalpy" || Lower(s) == "jython"
  }

  predicate ShortImpl(s: string) {
    Lower(s) == "cp" || Lower(s) == "pp" || Lower(s) == "gp" || Lower(s) == "jy"
  }

  predicate AllIn(s: string, class_: char -> bool) {
    s != [] && forall i :: 0 <= i < |s| ==> class_(s[i])
  }

  datatype Tag = Tag(digits: string, platform: string)

  /** The first suffix that ends the name. */
  function SuffixOf(name: string, suffixes: seq<string>): (suffix: Option<string>)
    ensures suffix.Some? ==> suffix.value in suffixes && EndsWith(name, suffix.value)
    ensures suffix.None? ==> forall s :: s in suffixes ==> !EndsWith(name, s)
  {
    if suffixes == [] then None
    else if EndsWith(name, suffixes[0]) then Some(suffixes[0])
    else SuffixOf(name, suffixes[1..])
  }

  /** The group of ^(?:cp|pp|gp|jy)(\d+)$, case ignored; $ also matches before a final newline. */
  function ShortDigits(d: Digits, part: string): Option<string> {
    if |part| < 2 || !ShortImpl(part[..2]) then None
    else if AllIn(part[2..], d.isDecimal) then Some(part[2..])
    else if part[|part| - 1] == '\n' && |part| > 2 && AllIn(part[2..|part| - 1], d.isDecimal)
    then Some(part[2..|part| - 1])
    else None
  }

  function TagOfParts(d: Digits, parts: seq<string>): Option<Tag>
    requires |parts| >= 1
  {
    if LongImpl(parts[0]) && |parts| >= 3 && AllIn(parts[1], d.isDigit) then Some(Tag(parts[1], Join(parts[2..], '-')))
    else if ShortDigits(d, parts[0]).Some? && |parts| >= 2
    then Some(Tag(ShortDigits(d, parts[0]).value, Join(parts[1..], '-')))
    else None
  }

  /** What stands between the last dot and the suffix, if it can be judged. */
  function TagText(filename: string): Option<string> {
    var suffix := SuffixOf(filename, EXT_SUFFIXES);
    if suffix.None? then None
    else
      var stem := filename[..|filename| - |suffix.value|];
      if '.' !in stem then None
      else
        var tag := stem[LastIndex(stem, '.') + 1..];
        if tag == "" || tag == "abi3" then None else Some(tag)
  }

  function ExtensionAbi(d: Digits, filename: string): Option<Tag> {
    match TagText(filename)
    case None => None
    case Some(tag) => TagOfParts(d, Split(tag, '-'))
  }

  // ----- names as they are printed -----

  datatype Head =
    | Long(impl: string, longDigits: string)
    | Short(shortImpl: string, shortDigits: string, newline: bool)
  {
    predicate WellFormed(d: Digits) {
      match this
      case Long(impl, digits) => LongImpl(impl) && AllIn(digits, d.isDigit)
      case Short(impl, digits, _) => ShortImpl(impl) && AllIn(digits, d.isDecimal)
    }

    function Digits(): string {
      match this
      case Long(_, digits) => digits
      case Short(_, digits, _) => digits
    }

    function Parts(): (parts: seq<string>)
      ensures |parts| >= 1
    {
      match this
      case Long(impl, digits) => [impl, digits]
      case Short(impl, digits, newline) => [impl + digits + if newline then "\n" else ""]
    }
  }

  predicate PrintsPlatform(platform: string) { '.' !in platform }

  function PrintTag(head: Head, platform: string): string {
    Join(head.Parts() + [platform], '-')
  }

  function Print(base: string, head: Head, platform: string, suffix: string): string {
    base + ['.'] + PrintTag(head, platform) + suffix
  }

  // ----- the name and its parts -----

  lemma LastOfSuffix(name: string, suffix: string)
    requires EndsWith(name, suffix) && suffix != []
    ensures name != [] && name[|name| - 1] == suffix[|suffix| - 1]
  {
    assert name[|name| - |suffix|..][|suffix| - 1] == name[|name| - 1];
  }

  /** The suffixes differ in their last characters. */
  lemma LastsDiffer(a: string, b: string)
    requires a in EXT_SUFFIXES && b in EXT_SUFFIXES
    ensures a != [] && b != [] && (a[|a| - 1] == b[|b| - 1] ==> a == b)
  {
    assert EXT_SUFFIXES[0] == ".so" && EXT_SUFFIXES[1] == ".pyd" && EXT_SUFFIXES[2] == ".dylib";
  }

  lemma EndsWithAppended(stem: string, suffix: string)
    ensures EndsWith(stem + suffix, suffix) && (stem + suffix)[..|stem + suffix| - |suffix|] == stem
  {
  }

  lemma SuffixesDiffer(stem: string, suffix: string)
    requires suffix in EXT_SUFFIXES
    ensures SuffixOf(stem + suffix, EXT_SUFFIXES) == Some(suffix)
    ensures (stem + suffix)[..|stem + suffix| - |suffix|] == stem
  {
    EndsWithAppended(stem, suffix);
    var found := SuffixOf(stem + suffix, EXT_SUFFIXES);
    assert found.Some?;
    LastsDiffer(found.value, suffix);
    LastOfSuffix(stem + suffix, found.value);
    LastOfSuffix(stem + suffix, suffix);
  }

  lemma TagTextPrinted(base: string, tag: string, suffix: string)
    requires suffix in EXT_SUFFIXES && '.' !in tag && tag != "" && tag != "abi3"
    ensures TagText(base + ['.'] + tag + suffix) == Some(tag)
  {
    SuffixesDiffer(base + ['.'] + tag, suffix);
    LastIndexPrinted(base, '.', tag);
    assert (base + ['.'] + tag)[|base| + 1..] == tag;
  }

  lemma TagTextWasPrinted(filename: string) returns (base: string, suffix: string)
    requires TagText(filename).Some?
    ensures var tag := TagText(filename).value;
            filename == base + ['.'] + tag + suffix && suffix in EXT_SUFFIXES && '.' !in tag
  {
    suffix := SuffixOf(filename, EXT_SUFFIXES).value;
    var stem := filename[..|filename| - |suffix|];
    var dot := LastIndex(stem, '.');
    base := stem[..dot];
    SplitAt(stem, dot);
    SuffixSplit(filename, suffix);
  }

  lemma SplitAt(s: string, i: nat)
    requires i < |s|
    ensures s == s[..i] + [s[i]] + s[i + 1..]
  {
  }

  lemma SuffixSplit(s: string, suffix: string)
    requires EndsWith(s, suffix)
    ensures s == s[..|s| - |suffix|] + suffix
  {
  }

  lemma LettersOfLower(s: string, lower: string)
    requires Lower(s) == lower && forall i :: 0 <= i < |lower| ==> 'a' <= lower[i] <= 'z'
    ensures forall i :: 0 <= i < |s| ==> IsAsciiLetter(s[i])
  {
    assert forall i :: 0 <= i < |s| ==> LowerChar(s[i]) == lower[i];
  }

  lemma ImplsAreLetters(s: string)
    ensures LongImpl(s) || ShortImpl(s) ==> forall i :: 0 <= i < |s| ==> IsAsciiLetter(s[i])
    ensures ShortImpl(s) ==> |s| == 2
  {
    if LongImpl(s) || ShortImpl(s) { LettersOfLower(s, Lower(s)); }
  }

  /** No part of a printed head holds a dot or a dash. */
  lemma HeadIsClean(d: Digits, head: Head)
    requires Lawful(d) && head.WellFormed(d)
    ensures forall i :: 0 <= i < |head.Parts()| ==> '.' !in head.Parts()[i] && '-' !in head.Parts()[i]
    ensures head.Parts()[0] != []
  {
  }

  lemma ShortHeadParses(d: Digits, impl: string, digits: string, newline: bool)
    requires Lawful(d) && ShortImpl(impl) && AllIn(digits, d.isDecimal)
    ensures var part := impl + digits + if newline then "\n" else "";
            !LongImpl(part) && ShortDigits(d, part) == Some(digits)
  {
    ImplsAreLetters(impl);
    var part := impl + digits + if newline then "\n" else "";
    ImplsAreLetters(part);
    assert part[2] == digits[0];
    assert part[..2] == impl;
    if newline {
      assert part[2..|part| - 1] == digits;
      assert part[2..][|part| - 3] == '\n';
    } else {
      assert part[2..] == digits;
    }
  }

  lemma TagOfPrintedParts(d: Digits, head: Head, rest: seq<string>)
    requires Lawful(d) && head.WellFormed(d) && |rest| >= 1
    ensures TagOfParts(d, head.Parts() + rest) == Some(Tag(head.Digits(), Join(rest, '-')))
  {
    var parts := head.Parts() + rest;
    match head
    case Long(impl, digits) => assert parts[2..] == rest;
    case Short(impl, digits, newline) =>
      ShortHeadParses(d, impl, digits, newline);
      assert parts[1..] == rest;
  }

  lemma {:induction false} SplitOfJoined(parts: seq<string>, platform: string)
    requires forall i :: 0 <= i < |parts| ==> '-' !in parts[i]
    ensures Split(Join(parts + [platform], '-'), '-') == parts + Split(platform, '-')
  {
    if parts == [] {
      assert parts + [platform] == [platform];
    } else {
      var rest := parts[1..];
      SplitOfJoined(rest, platform);
      assert (parts + [platform])[1..] == rest + [platform];
      SplitFirst(parts[0], '-', Join(rest + [platform], '-'));
      assert Join(parts + [platform], '-') == parts[0] + ['-'] + Join(rest + [platform], '-');
      ConcatAssociates([parts[0]], rest, Split(platform, '-'));
      assert [parts[0]] + rest == parts;
    }
  }

  lemma {:induction false} JoinHas(parts: seq<string>, c: char)
    requires |parts| >= 1 && c != '-' && forall i :: 0 <= i < |parts| ==> c !in parts[i]
    ensures c !in Join(parts, '-')
  {
    if |parts| > 1 { JoinHas(parts[1..], c); }
  }

  lemma PrintedTagHasDash(head: Head, platform: string)
    ensures '-' in PrintTag(head, platform)
  {
  }

  /** Parsing undoes printing for every base, implementation name, digits, dot-free platform and suffix;
      the dashes of the platform survive. */
  lemma AbiUndoesPrint(d: Digits, base: string, head: Head, platform: string, suffix: string)
    requires Lawful(d) && head.WellFormed(d) && PrintsPlatform(platform) && suffix in EXT_SUFFIXES
    ensures ExtensionAbi(d, Print(base, head, platform, suffix)) == Some(Tag(head.Digits(), platform))
  {
    var tag := PrintTag(head, platform);
    HeadIsClean(d, head);
    JoinHas(head.Parts() + [platform], '.');
    PrintedTagHasDash(head, platform);
    assert '-' !in "abi3";
    TagTextPrinted(base, tag, suffix);
    SplitOfJoined(head.Parts(), platform);
    TagOfPrintedParts(d, head, Split(platform, '-'));
    JoinSplit(platform, '-');
  }

  lemma ShortPartWasPrinted(d: Digits, part: string) returns (head: Head)
    requires ShortDigits(d, part).Some?
    ensures head.WellFormed(d) && head.Parts() == [part] && head.Digits() == ShortDigits(d, part).value
  {
    var newline := !AllIn(part[2..], d.isDecimal);
    head := Short(part[..2], ShortDigits(d, part).value, newline);
    assert part == part[..2] + head.shortDigits + if newline then "\n" else "";
  }

  lemma TagWasPrinted(d: Digits, text: string) returns (head: Head)
    requires TagOfParts(d, Split(text, '-')).Some?
    ensures head.WellFormed(d)
    ensures var tag := TagOfParts(d, Split(text, '-')).value;
            && head.Digits() == tag.digits && PrintTag(head, tag.platform) == text
            && forall c | c in tag.platform :: c in text
  {
    var parts := Split(text, '-');
    JoinSplit(text, '-');
    if LongImpl(parts[0]) && |parts| >= 3 && AllIn(parts[1], d.isDigit) {
      head := Long(parts[0], parts[1]);
    } else {
      head := ShortPartWasPrinted(d, parts[0]);
    }
    assert parts[..|head.Parts()|] == head.Parts();
    JoinRegroups(head.Parts(), parts);
  }

  /** Every name that parses was printed: nothing else has a tag. With AbiUndoesPrint this says exactly
      which names are judged, and how. */
  lemma AbiWasPrinted(d: Digits, filename: string) returns (base: string, head: Head, suffix: string)
    requires ExtensionAbi(d, filename).Some?
    ensures head.WellFormed(d) && suffix in EXT_SUFFIXES
    ensures var tag := ExtensionAbi(d, filename).value;
            && PrintsPlatform(tag.platform) && head.Digits() == tag.digits
            && filename == Print(base, head, tag.platform, suffix)
  {
    base, suffix := TagTextWasPrinted(filename);
    head := TagWasPrinted(d, TagText(filename).value);
  }

  /** Joining the parts after a head first changes nothing; what is joined comes from the text. */
  lemma {:induction false} JoinRegroups(head: seq<string>, parts: seq<string>)
    requires |head| < |parts| && parts[..|head|] == head
    ensures Join(head + [Join(parts[|head|..], '-')], '-') == Join(parts, '-')
    ensures forall c | c in Join(parts[|head|..], '-') :: c in Join(parts, '-')
  {
    if head == [] {
      assert parts[0..] == parts;
      assert head + [Join(parts, '-')] == [Join(parts, '-')];
    } else {
      JoinRegroups(head[1..], parts[1..]);
      assert (head + [Join(parts[|head|..], '-')])[1..] == head[1..] + [Join(parts[|head|..], '-')];
      assert parts[1..][|head| - 1..] == parts[|head|..];
    }
  }

  // ----- the host -----

  /** HostFacts.ext_platform from sysconfig's EXT_SUFFIX. */
  function HostPlatform(d: Digits, extSuffix: string): string {
    if extSuffix != "" && ExtensionAbi(d, extSuffix).Some? then ExtensionAbi(d, extSuffix).value.platform else ""
  }

  predicate Foreign(hostPlatform: string, tag: Tag) {
    hostPlatform != "" && tag.platform != hostPlatform
  }

  lemma PrintAfter(base: string, inner: string, tag: string, suffix: string)
    ensures base + (inner + ['.'] + tag + suffix) == base + inner + ['.'] + tag + suffix
  {
  }

  /** A file named with the host's own EXT_SUFFIX is never foreign, whatever its base and whatever the
      suffix is. */
  lemma HostFilesAreNative(d: Digits, extSuffix: string, base: string)
    requires Lawful(d)
    ensures var tag := ExtensionAbi(d, base + extSuffix);
            tag.Some? ==> !Foreign(HostPlatform(d, extSuffix), tag.value)
  {
    if HostPlatform(d, extSuffix) != "" {
      var inner, head, suffix := AbiWasPrinted(d, extSuffix);
      var platform := HostPlatform(d, extSuffix);
      PrintAfter(base, inner, PrintTag(head, platform), suffix);
      AbiUndoesPrint(d, base + inner, head, platform, suffix);
    }
  }

  /** Any other printed platform is foreign to a host whose own suffix carries a tag. */
  lemma OtherPlatformsAreForeign(d: Digits, extSuffix: string,
                                 base: string, head: Head, platform: string, suffix: string)
    requires Lawful(d) && head.WellFormed(d) && PrintsPlatform(platform) && suffix in EXT_SUFFIXES
    requires HostPlatform(d, extSuffix) != ""
    ensures var tag := ExtensionAbi(d, Print(base, head, platform, suffix));
            tag.Some? && (Foreign(HostPlatform(d, extSuffix), tag.value) <==> platform != HostPlatform(d, extSuffix))
  {
    AbiUndoesPrint(d, base, head, platform, suffix);
  }
}
