/** SQL's three-valued logic, and the text functions used by the CHECK expressions.
    A NULL column is None. A CHECK rejects only FALSE; a WHERE keeps only TRUE. */
module SqlLogic {
  import opened Common
  import opened Text

  datatype Truth = Yes | No | Unknown {

    function And(other: Truth): Truth {
      if No? || other.No? then No
      else if Yes? && other.Yes? then Yes
      else Unknown
    }

    function Or(other: Truth): Truth {
      if Yes? || other.Yes? then Yes
      else if No? && other.No? then No
      else Unknown
    }

    function Not(): Truth {
      match this
      case Yes => No
      case No => Yes
      case Unknown => Unknown
    }

    /** What a CHECK constraint lets in. */
    predicate CheckAdmits() { this != No }

    /** What a WHERE clause keeps. */
    predicate WhereKeeps() { this == Yes }
  }

  function Lift(b: bool): Truth {
    if b then Yes else No
  }

  function IsNull<T>(column: Option<T>): Truth {
    Lift(column.None?)
  }

  function IsNotNull<T>(column: Option<T>): Truth {
    Lift(column.Some?)
  }

  function Eq<T(==)>(left: Option<T>, right: Option<T>): Truth {
    if left.None? || right.None? then Unknown else Lift(left.value == right.value)
  }

  /** `column IN (literals)`, where no literal is NULL. */
  function In(column: Option<string>, literals: seq<string>): Truth {
    if column.None? then Unknown else Lift(column.value in literals)
  }

  // ----- length and replace -----

  function Length(text: Option<string>): Option<nat> {
    match text
    case None => None
    case Some(s) => Some(|s|)
  }

  function RemoveChar(s: string, c: char): string {
    if s == [] then []
    else if s[0] == c then RemoveChar(s[1..], c)
    else [s[0]] + RemoveChar(s[1..], c)
  }

  /** `replace(text, 'c', '')`. */
  function ReplaceWithEmpty(text: Option<string>, c: char): Option<string> {
    match text
    case None => None
    case Some(s) => Some(RemoveChar(s, c))
  }

  const HEX_DIGITS: string := "0123456789abcdef"

  /** The nested `replace(replace(..., '0', ''), '1', '') ...` built by the generator loop, innermost first. */
  function NestedReplace(text: Option<string>, digits: string): Option<string> {
    if digits == [] then text
    else ReplaceWithEmpty(NestedReplace(text, digits[..|digits| - 1]), digits[|digits| - 1])
  }

  /** `length(column) = 64 AND length(<nested replace>) = 0`. */
  function HexShape(column: Option<string>, size: nat): Truth {
    Eq(Length(column), Some(size)).And(AllHex(column))
  }

  function AllHex(column: Option<string>): Truth {
    Eq(Length(NestedReplace(column, HEX_DIGITS)), Some(0))
  }

  lemma {:induction false} RemoveCharMembers(s: string, c: char)
    ensures forall d :: d in RemoveChar(s, c) <==> d in s && d != c
  {
    if s != [] {
      RemoveCharMembers(s[1..], c);
      assert s == [s[0]] + s[1..];
    }
  }

  /** What sixteen replacements leave are exactly the characters that are not digits. */
  lemma {:induction false} NestedReplaceMembers(s: string, digits: string)
    ensures var rest := NestedReplace(Some(s), digits);
            rest.Some? && forall d :: d in rest.value <==> d in s && d !in digits
  {
    if digits != [] {
      var init, last := digits[..|digits| - 1], digits[|digits| - 1];
      NestedReplaceMembers(s, init);
      RemoveCharMembers(NestedReplace(Some(s), init).value, last);
      assert digits == init + [last];
    }
  }

  lemma HexDigitsAreLowerHex(d: char)
    ensures d in HEX_DIGITS <==> IsLowerHex(d)
  {
  }

  /** The nested-replace test accepts a text of the given length exactly when it is [0-9a-f]{size};
      it is UNKNOWN exactly on NULL. */
  lemma HexShapeIsHexText(column: Option<string>, size: nat)
    ensures HexShape(column, size).Unknown? <==> column.None?
    ensures HexShape(column, size).Yes? <==>
            column.Some? && |column.value| == size && forall i :: 0 <= i < size ==> IsLowerHex(column.value[i])
    ensures AllHex(column).Unknown? <==> column.None?
    ensures AllHex(column).Yes? <==> column.Some? && forall d :: d in column.value ==> IsLowerHex(d)
  {
    if column.Some? {
      var s := column.value;
      NestedReplaceMembers(s, HEX_DIGITS);
      forall d ensures d in HEX_DIGITS <==> IsLowerHex(d) { HexDigitsAreLowerHex(d); }
      var rest := NestedReplace(column, HEX_DIGITS).value;
      assert |rest| == 0 <==> forall d :: d !in rest by {
        if |rest| > 0 { assert rest[0] in rest; }
      }
    } else {
      NestedReplaceOfNull(HEX_DIGITS);
    }
  }

  lemma {:induction false} NestedReplaceOfNull(digits: string)
    ensures NestedReplace(None, digits) == None
  {
    if digits != [] { NestedReplaceOfNull(digits[..|digits| - 1]); }
  }

  /** The generator loop, run over a stored text instead of an expression: one replacement an iteration. */
  method EvaluateHexLoop(s: string) returns (accepted: bool)
    ensures accepted <==> forall i :: 0 <= i < |s| ==> IsLowerHex(s[i])
    ensures accepted <==> AllHex(Some(s)).Yes?
  {
    var rest := s;
    for k := 0 to |HEX_DIGITS|
      invariant NestedReplace(Some(s), HEX_DIGITS[..k]) == Some(rest)
    {
      rest := RemoveChar(rest, HEX_DIGITS[k]);
      assert HEX_DIGITS[..k + 1][..k] == HEX_DIGITS[..k];
    }
    assert HEX_DIGITS[..|HEX_DIGITS|] == HEX_DIGITS;
    accepted := |rest| == 0;
    HexShapeIsHexText(Some(s), |s|);
    assert forall d :: d in s <==> exists i :: 0 <= i < |s| && s[i] == d;
  }
}
