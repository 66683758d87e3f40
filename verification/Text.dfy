/** The string operations of the modelled Python code: split, partition, strip, membership.
    A string is a sequence of code points, as in Python. */
module Text {
  import opened Common

  /** The code points str.isspace accepts, and so those str.strip removes. */
  predicate IsSpace(c: char) {
    || '\t' <= c <= '\r'
    || '\U{1C}' <= c <= ' '
    || c == '\U{85}' || c == '\U{A0}' || c == '\U{1680}'
    || '\U{2000}' <= c <= '\U{200A}'
    || c == '\U{2028}' || c == '\U{2029}' || c == '\U{202F}' || c == '\U{205F}' || c == '\U{3000}'
  }

  /** The line boundaries of str.splitlines; the pair "\r\n" counts as one. */
  predicate IsLineBreak(c: char) {
    || '\n' <= c <= '\r'
    || '\U{1C}' <= c <= '\U{1E}'
    || c == '\U{85}' || c == '\U{2028}' || c == '\U{2029}'
  }

  predicate IsAsciiDigit(c: char) { '0' <= c <= '9' }

  predicate IsLowerHex(c: char) { '0' <= c <= '9' || 'a' <= c <= 'f' }

  /** The language of the regular expression [0-9a-f]{64}. */
  predicate LowerHex64(s: string) {
    |s| == 64 && forall i :: 0 <= i < |s| ==> IsLowerHex(s[i])
  }

  predicate StartsWith(s: string, prefix: string) {
    |prefix| <= |s| && s[..|prefix|] == prefix
  }

  predicate EndsWith(s: string, suffix: string) {
    |suffix| <= |s| && s[|s| - |suffix|..] == suffix
  }

  predicate OccursAt(s: string, i: nat, sub: string) {
    i + |sub| <= |s| && s[i..i + |sub|] == sub
  }

  /** Python's `sub in s`. */
  predicate Contains(s: string, sub: string) {
    exists i :: 0 <= i <= |s| && OccursAt(s, i, sub)
  }

  lemma ContainsInContext(before: string, middle: string, after: string, sub: string)
    requires Contains(middle, sub)
    ensures Contains(before + middle + after, sub)
  {
    var i :| 0 <= i <= |middle| && OccursAt(middle, i, sub);
    var whole := before + middle + after;
    assert whole[|before| + i..|before| + i + |sub|] == middle[i..i + |sub|];
    assert OccursAt(whole, |before| + i, sub);
  }

  /** Contains is the existence of a two-sided context. */
  lemma ContainsSplits(s: string, sub: string) returns (before: string, after: string)
    requires Contains(s, sub)
    ensures s == before + sub + after
  {
    var i :| 0 <= i <= |s| && OccursAt(s, i, sub);
    before, after := s[..i], s[i + |sub|..];
  }

  lemma ContainsInHead(head: string, tail: string, sub: string)
    requires Contains(head, sub)
    ensures Contains(head + tail, sub)
  {
    var i :| 0 <= i <= |head| && OccursAt(head, i, sub);
    assert (head + tail)[i..i + |sub|] == head[i..i + |sub|];
    assert OccursAt(head + tail, i, sub);
  }

  lemma ContainsInTail(head: string, tail: string, sub: string)
    requires Contains(tail, sub)
    ensures Contains(head + tail, sub)
  {
    var i :| 0 <= i <= |tail| && OccursAt(tail, i, sub);
    assert (head + tail)[|head| + i..|head| + i + |sub|] == tail[i..i + |sub|];
    assert OccursAt(head + tail, |head| + i, sub);
  }

  lemma OccursChars(s: string, i: nat, sub: string)
    requires OccursAt(s, i, sub)
    ensures forall k :: 0 <= k < |sub| ==> s[i + k] == sub[k]
  {
  }

  /** An occurrence either holds the character between the two parts or lies in one of them. */
  lemma ContainsAround(a: string, c: char, b: string, sub: string)
    requires Contains(a + ([c] + b), sub)
    ensures c in sub || Contains(a, sub) || Contains(b, sub)
  {
    var whole := a + ([c] + b);
    var i :| 0 <= i <= |whole| && OccursAt(whole, i, sub);
    OccursChars(whole, i, sub);
    if i + |sub| <= |a| {
      assert whole[i..i + |sub|] == a[i..i + |sub|];
      assert OccursAt(a, i, sub);
    } else if i > |a| {
      assert whole[i..i + |sub|] == b[i - |a| - 1..i - |a| - 1 + |sub|];
      assert OccursAt(b, i - |a| - 1, sub);
    } else {
      assert whole[i + (|a| - i)] == sub[|a| - i];
    }
  }

  /** An occurrence either starts in the head, with its first character, or lies in the tail. */
  lemma ContainsPastHead(head: string, tail: string, sub: string)
    requires sub != [] && Contains(head + tail, sub)
    ensures sub[0] in head || Contains(tail, sub)
  {
    var whole := head + tail;
    var i :| 0 <= i <= |whole| && OccursAt(whole, i, sub);
    OccursChars(whole, i, sub);
    assert whole[i + 0] == sub[0];
    if i < |head| {
      assert sub[0] == head[i];
    } else {
      assert whole[i..i + |sub|] == tail[i - |head|..i - |head| + |sub|];
      assert OccursAt(tail, i - |head|, sub);
    }
  }

  /** An occurrence either ends in the tail, with its last character, or lies in the head. */
  lemma ContainsBeforeTail(head: string, tail: string, sub: string)
    requires sub != [] && Contains(head + tail, sub)
    ensures sub[|sub| - 1] in tail || Contains(head, sub)
  {
    var whole := head + tail;
    var i :| 0 <= i <= |whole| && OccursAt(whole, i, sub);
    OccursChars(whole, i, sub);
    assert whole[i + (|sub| - 1)] == sub[|sub| - 1];
    if i + |sub| > |head| {
      assert sub[|sub| - 1] == tail[i + |sub| - 1 - |head|];
    } else {
      assert whole[i..i + |sub|] == head[i..i + |sub|];
      assert OccursAt(head, i, sub);
    }
  }

  // ----- first occurrence and partition -----

  /** Index of the first c in s, or |s| when there is none. */
  function FirstIndex(s: string, c: char): (i: nat)
    ensures i <= |s|
    ensures c !in s[..i]
    ensures i < |s| ==> s[i] == c
    ensures c !in s <==> i == |s|
  {
    if s == [] then 0
    else if s[0] == c then 0
    else
      var rest := FirstIndex(s[1..], c);
      assert s[..rest + 1] == [s[0]] + s[1..][..rest];
      assert s == [s[0]] + s[1..];
      rest + 1
  }

  /** str.partition for a one-character separator: (before, found, after). */
  function Partition(s: string, c: char): (string, bool, string) {
    var i := FirstIndex(s, c);
    if i < |s| then (s[..i], true, s[i + 1..]) else (s, false, [])
  }

  lemma PartitionPrinted(before: string, c: char, after: string)
    requires c !in before
    ensures Partition(before + [c] + after, c) == (before, true, after)
  {
    var s := before + [c] + after;
    var i := FirstIndex(s, c);
    assert s[|before|] == c;
    assert forall k :: 0 <= k < |before| ==> s[k] == before[k];
    assert forall k :: 0 <= k < i ==> s[k] in s[..i];
    assert s[..i] == before && s[i + 1..] == after;
  }

  /** Index of the last c in s; the caller knows there is one. */
  function LastIndex(s: string, c: char): (i: nat)
    requires c in s
    ensures i < |s| && s[i] == c && c !in s[i + 1..]
  {
    if s[|s| - 1] == c then |s| - 1
    else
      assert s == s[..|s| - 1] + [s[|s| - 1]];
      var j := LastIndex(s[..|s| - 1], c);
      assert s[j + 1..] == s[..|s| - 1][j + 1..] + [s[|s| - 1]];
      j
  }

  lemma LastIndexPrinted(before: string, c: char, after: string)
    requires c !in after
    ensures c in before + [c] + after && LastIndex(before + [c] + after, c) == |before|
  {
    var s := before + [c] + after;
    assert s[|before|] == c;
    var i := LastIndex(s, c);
    assert forall k :: |before| < k < |s| ==> s[k] == after[k - |before| - 1];
    assert forall k :: i < k < |s| ==> s[k] in s[i + 1..];
  }

  // ----- split and join -----

  /** str.split for a one-character separator. */
  function Split(s: string, sep: char): (parts: seq<string>)
    ensures |parts| >= 1
    ensures forall i :: 0 <= i < |parts| ==> sep !in parts[i]
  {
    if s == [] then [[]]
    else if s[0] == sep then [[]] + Split(s[1..], sep)
    else
      var rest := Split(s[1..], sep);
      [[s[0]] + rest[0]] + rest[1..]
  }

  function Join(parts: seq<string>, sep: char): string
    requires |parts| >= 1
  {
    if |parts| == 1 then parts[0] else parts[0] + [sep] + Join(parts[1..], sep)
  }

  lemma {:induction false} SplitFirst(head: string, sep: char, rest: string)
    requires sep !in head
    ensures Split(head, sep) == [head]
    ensures Split(head + [sep] + rest, sep) == [head] + Split(rest, sep)
  {
    var s := head + [sep] + rest;
    if head == [] {
      assert s[1..] == rest;
    } else {
      SplitFirst(head[1..], sep, rest);
      assert s[1..] == head[1..] + [sep] + rest;
      assert [head[0]] + head[1..] == head;
    }
  }

  /** Splitting undoes joining when no part holds the separator, and joining undoes splitting. */
  lemma {:induction false} SplitJoin(parts: seq<string>, sep: char)
    requires |parts| >= 1
    requires forall i :: 0 <= i < |parts| ==> sep !in parts[i]
    ensures Split(Join(parts, sep), sep) == parts
  {
    if |parts| == 1 {
      SplitFirst(parts[0], sep, []);
    } else {
      SplitJoin(parts[1..], sep);
      SplitFirst(parts[0], sep, Join(parts[1..], sep));
      assert [parts[0]] + parts[1..] == parts;
    }
  }

  lemma {:induction false} JoinSplit(s: string, sep: char)
    ensures Join(Split(s, sep), sep) == s
  {
    if s != [] {
      JoinSplit(s[1..], sep);
      var rest := Split(s[1..], sep);
      if s[0] == sep {
        assert (([[]] + rest)[1..]) == rest;
        assert Join([[]] + rest, sep) == [] + [sep] + Join(rest, sep);
        assert [sep] + s[1..] == s;
      } else {
        var parts := [[s[0]] + rest[0]] + rest[1..];
        assert parts[1..] == rest[1..];
        assert Join(parts, sep) == [s[0]] + Join(rest, sep);
        assert [s[0]] + s[1..] == s;
      }
    }
  }

  // ----- strip -----

  /** Index of the first character from i on that is no space, or |s|. */
  function SpacesFrom(s: string, i: nat): (n: nat)
    requires i <= |s|
    ensures i <= n <= |s| && (n < |s| ==> !IsSpace(s[n]))
    decreases |s| - i
  {
    if i < |s| && IsSpace(s[i]) then SpacesFrom(s, i + 1) else i
  }

  /** Index after the last character before j that is no space, or 0. */
  function SpacesBefore(s: string, j: nat): (n: nat)
    requires j <= |s|
    ensures n <= j && (n > 0 ==> !IsSpace(s[n - 1]))
  {
    if j > 0 && IsSpace(s[j - 1]) then SpacesBefore(s, j - 1) else j
  }

  function LStrip(s: string): string {
    s[SpacesFrom(s, 0)..]
  }

  function RStrip(s: string): string {
    s[..SpacesBefore(s, |s|)]
  }

  predicate Trimmed(s: string) {
    s == [] || (!IsSpace(s[0]) && !IsSpace(s[|s| - 1]))
  }

  /** str.strip with no argument. */
  function Strip(s: string): (r: string)
    ensures Trimmed(r)
    ensures Trimmed(s) ==> r == s
  {
    RStrip(LStrip(s))
  }

  predicate Blank(s: string) {
    forall i :: 0 <= i < |s| ==> IsSpace(s[i])
  }

  /** Stripping removes white space only. */
  lemma {:induction false} SpacesFromAreSpaces(s: string, i: nat)
    requires i <= |s|
    ensures forall k :: i <= k < SpacesFrom(s, i) ==> IsSpace(s[k])
    decreases |s| - i
  {
    if i < |s| && IsSpace(s[i]) { SpacesFromAreSpaces(s, i + 1); }
  }

  lemma {:induction false} SpacesBeforeAreSpaces(s: string, j: nat)
    requires j <= |s|
    ensures forall k :: SpacesBefore(s, j) <= k < j ==> IsSpace(s[k])
  {
    if j > 0 && IsSpace(s[j - 1]) { SpacesBeforeAreSpaces(s, j - 1); }
  }

  /** And all of it. */
  lemma {:induction false} SpacesFromIs(s: string, i: nat, n: nat)
    requires i <= n <= |s| && (forall k :: i <= k < n ==> IsSpace(s[k])) && (n < |s| ==> !IsSpace(s[n]))
    ensures SpacesFrom(s, i) == n
    decreases n - i
  {
    if i < n { SpacesFromIs(s, i + 1, n); }
  }

  lemma {:induction false} SpacesBeforeIs(s: string, j: nat, n: nat)
    requires n <= j <= |s| && (forall k :: n <= k < j ==> IsSpace(s[k])) && (n > 0 ==> !IsSpace(s[n - 1]))
    ensures SpacesBefore(s, j) == n
  {
    if n < j { SpacesBeforeIs(s, j - 1, n); }
  }

  lemma LStripBlank(pad: string, s: string)
    requires Blank(pad)
    ensures LStrip(pad + s) == LStrip(s)
  {
    var n := SpacesFrom(s, 0);
    var whole := pad + s;
    SpacesFromAreSpaces(s, 0);
    forall k | 0 <= k < |pad| + n ensures IsSpace(whole[k]) {
      assert whole[k] == if k < |pad| then pad[k] else s[k - |pad|];
    }
    SpacesFromIs(whole, 0, |pad| + n);
    assert whole[|pad| + n..] == s[n..];
  }

  /** Stripping the end does not reach past a character that is no space. */
  lemma RStripAfter(s: string, tail: string)
    requires s != [] && !IsSpace(s[|s| - 1])
    ensures RStrip(s + tail) == s + RStrip(tail)
  {
    var n := SpacesBefore(tail, |tail|);
    var whole := s + tail;
    SpacesBeforeAreSpaces(tail, |tail|);
    forall k | |s| + n <= k < |whole| ensures IsSpace(whole[k]) { assert whole[k] == tail[k - |s|]; }
    assert whole[|s| + n - 1] == if n > 0 then tail[n - 1] else s[|s| - 1];
    SpacesBeforeIs(whole, |whole|, |s| + n);
    assert whole[..|s| + n] == s + tail[..n];
  }

  lemma RStripOfBlank(pad: string)
    requires Blank(pad)
    ensures RStrip(pad) == []
  {
    SpacesBeforeIs(pad, |pad|, 0);
  }

  lemma LStripKeeps(s: string)
    requires s == [] || !IsSpace(s[0])
    ensures LStrip(s) == s
  {
    SpacesFromIs(s, 0, 0);
  }

  lemma RStripPadded(s: string, pad: string)
    requires Blank(pad) && (s == [] || !IsSpace(s[|s| - 1]))
    ensures RStrip(s + pad) == s
  {
    RStripOfBlank(pad);
    if s == [] {
      assert s + pad == pad;
    } else {
      RStripAfter(s, pad);
      assert s + [] == s;
    }
  }

  /** Stripping undoes padding. */
  lemma StripPadded(before: string, s: string, after: string)
    requires Blank(before) && Trimmed(s) && Blank(after)
    ensures Strip(before + (s + after)) == s
  {
    LStripBlank(before, s + after);
    if s == [] {
      assert s + after == after == after + [];
      LStripBlank(after, []);
    } else {
      LStripKeeps(s + after);
      RStripPadded(s, after);
    }
  }
}
