/** The contract of the headers that clear the auth and flow cookies. */
module CookieClear {
  import opened Common
  import opened Text
  import opened Collections
  import opened Cookies

  // ----- the headers of one name -----

  function HeadersFor(headers: seq<string>, name: string): seq<string> {
    Filter(headers, (header: string) => Names(header, name))
  }

  /** dict.get: a flag and an absent attribute both read as None. */
  function Get(attributes: Attributes, name: string): Option<string> {
    if name in attributes then attributes[name] else None
  }

  predicate Has(attributes: Attributes, path: string, sameSite: string) {
    Get(attributes, "path") == Some(path) && Get(attributes, "samesite") == Some(sameSite)
  }

  predicate IsAuth(name: string) { EndsWith(name, "session") }

  predicate IsFlow(name: string) { EndsWith(name, "flow") }

  function ParseEach(items: seq<string>, name: string): (parsed: seq<Option<Attributes>>)
    ensures |parsed| == |items|
  {
    seq(|items|, i requires 0 <= i < |items| => Parse(items[i], name))
  }

  /** The parsed headers that carry this path and SameSite value. */
  function Matching(items: seq<Option<Attributes>>, path: string, sameSite: string): seq<Attributes> {
    if items == [] then []
    else
      var rest := Matching(items[1..], path, sameSite);
      if items[0].Some? && Has(items[0].value, path, sameSite) then [items[0].value] + rest else rest
  }

  /** Of exactly two headers, the only one with this path and SameSite value. */
  function OneOfTwo(items: seq<Option<Attributes>>, path: string, sameSite: string): Option<Attributes> {
    var matching := Matching(items, path, sameSite);
    if |items| == 2 && |matching| == 1 then Some(matching[0]) else None
  }

  function ParsedFrom(items: seq<Option<Attributes>>, name: string): Option<Attributes> {
    if IsAuth(name) then OneOfTwo(items, "/", "lax")
    else if |items| == 1 then items[0]
    else None
  }

  /** What the headers say of each name, and of each auth name's legacy header. */
  datatype Readings = Readings(parsed: map<string, Option<Attributes>>, legacy: map<string, Option<Attributes>>)

  function Read(headers: seq<string>, names: seq<string>): Readings {
    Readings(map name | name in names :: ParsedFrom(ParseEach(HeadersFor(headers, name), name), name),
             map name | name in names && IsAuth(name) ::
               OneOfTwo(ParseEach(HeadersFor(headers, name), name), "/api/v1", "strict"))
  }

  // ----- the contract -----

  datatype Contract = Contract(
    authPath: Option<string>,
    authSameSite: Option<string>,
    flowPath: Option<string>,
    flowSameSite: Option<string>,
    httpOnly: bool,
    secureParity: bool,
    hostOnly: bool)

  const EXPECTED := Contract(Some("/"), Some("lax"), Some("/api/v1"), Some("strict"), true, true, true)

  function Present(values: seq<Option<Attributes>>): seq<Attributes> {
    if values == [] then []
    else if values[0].Some? then [values[0].value] + Present(values[1..])
    else Present(values[1..])
  }

  function Values(readings: map<string, Option<Attributes>>, names: seq<string>): seq<Option<Attributes>> {
    if names == [] then []
    else [if names[0] in readings then readings[names[0]] else None] + Values(readings, names[1..])
  }

  function AuthNames(names: seq<string>): seq<string> { Filter(names, (name: string) => IsAuth(name)) }

  function FlowNames(names: seq<string>): seq<string> { Filter(names, (name: string) => IsFlow(name)) }

  function Selected(r: Readings, names: seq<string>): seq<Attributes> {
    Present(Values(r.parsed, FirstOccurrences(names)) + Values(r.legacy, AuthNames(FirstOccurrences(names))))
  }

  predicate Found(readings: map<string, Option<Attributes>>, name: string) {
    name in readings && readings[name].Some?
  }

  predicate ExactInventory(r: Readings, names: seq<string>) {
    var auth, flow := AuthNames(names), FlowNames(names);
    && names != [] && |auth| <= 1 && |flow| <= 1 && |auth| + |flow| == |names|
    && (forall name :: name in names ==> Found(r.parsed, name))
    && (forall name :: name in auth ==> Found(r.legacy, name))
    && |Selected(r, names)| == |names| + |auth|
  }

  function NamedAttribute(r: Readings, names: seq<string>, roles: seq<string>, attribute: string, expected: string)
    : Option<string>
  {
    if !ExactInventory(r, names) || |roles| != 1 then None
    else if Found(r.parsed, roles[0]) && Get(r.parsed[roles[0]].value, attribute) == Some(expected) then Some(expected)
    else None
  }

  predicate FlagExact(attributes: Attributes, name: string) {
    name in attributes && attributes[name].None?
  }

  predicate SecureParityExact(attributes: Attributes, secure: bool) {
    if secure then FlagExact(attributes, "secure") else "secure" !in attributes
  }

  predicate AllHttpOnly(selected: seq<Attributes>) {
    forall i :: 0 <= i < |selected| ==> FlagExact(selected[i], "httponly")
  }

  predicate AllSecureParity(selected: seq<Attributes>, secure: bool) {
    forall i :: 0 <= i < |selected| ==> SecureParityExact(selected[i], secure)
  }

  predicate AllHostOnly(selected: seq<Attributes>) {
    forall i :: 0 <= i < |selected| ==> "domain" !in selected[i]
  }

  function Judge(r: Readings, names: seq<string>, secure: bool): Contract {
    var exact, selected := ExactInventory(r, names), Selected(r, names);
    Contract(
      NamedAttribute(r, names, AuthNames(names), "path", "/"),
      NamedAttribute(r, names, AuthNames(names), "samesite", "lax"),
      NamedAttribute(r, names, FlowNames(names), "path", "/api/v1"),
      NamedAttribute(r, names, FlowNames(names), "samesite", "strict"),
      exact && AllHttpOnly(selected), exact && AllSecureParity(selected, secure), exact && AllHostOnly(selected))
  }

  predicate MaxAgeZero(readings: map<string, Option<Attributes>>, name: string) {
    Found(readings, name) && Get(readings[name].value, "max-age") == Some("0")
  }

  function JudgeCleared(r: Readings, names: seq<string>): map<string, bool> {
    map name | name in names :: MaxAgeZero(r.parsed, name) && (IsAuth(name) ==> MaxAgeZero(r.legacy, name))
  }

  /** The contract and the cleared names of a header list. */
  function ClearContract(headers: seq<string>, names: seq<string>, secure: bool): (Contract, map<string, bool>) {
    var r := Read(headers, names);
    (Judge(r, names, secure), JudgeCleared(r, names))
  }

  // ----- exactly what passes -----

  /** No Domain, HttpOnly, Secure exactly when asked, Max-Age=0. */
  predicate Clearing(attributes: Attributes, secure: bool) {
    && FlagExact(attributes, "httponly") && SecureParityExact(attributes, secure)
    && "domain" !in attributes && Get(attributes, "max-age") == Some("0")
  }

  /** A header that clears its cookie at this path and SameSite value. */
  predicate Clears(attributes: Option<Attributes>, path: string, sameSite: string, secure: bool) {
    attributes.Some? && Has(attributes.value, path, sameSite) && Clearing(attributes.value, secure)
  }

  predicate Passes(headers: seq<string>, auth: string, flow: string, secure: bool) {
    ClearContract(headers, [auth, flow], secure) == (EXPECTED, map[auth := true, flow := true])
  }

  predicate OneOfEach(items: seq<Option<Attributes>>, secure: bool) {
    && |items| == 2
    && ((Clears(items[0], "/", "lax", secure) && Clears(items[1], "/api/v1", "strict", secure))
        || (Clears(items[0], "/api/v1", "strict", secure) && Clears(items[1], "/", "lax", secure)))
  }

  predicate ExactHeaders(headers: seq<string>, auth: string, flow: string, secure: bool) {
    && OneOfEach(ParseEach(HeadersFor(headers, auth), auth), secure)
    && var items := ParseEach(HeadersFor(headers, flow), flow);
       |items| == 1 && Clears(items[0], "/api/v1", "strict", secure)
  }

  lemma RolesDiffer(auth: string, flow: string)
    requires IsAuth(auth) && IsFlow(flow)
    ensures !IsFlow(auth) && !IsAuth(flow) && auth != flow
  {
    assert auth[|auth| - 1] == 'n' && flow[|flow| - 1] == 'w';
  }

  lemma ValuesOfTwo(readings: map<string, Option<Attributes>>, a: string, b: string)
    requires a in readings && b in readings
    ensures Values(readings, [a]) == [readings[a]]
    ensures Values(readings, [a, b]) == [readings[a], readings[b]]
  {
    assert [a, b][1..] == [b] && [b][1..] == [] && [a][1..] == [];
    assert Values(readings, [b]) == [readings[b]];
  }

  lemma PresentThree(a: Option<Attributes>, b: Option<Attributes>, c: Option<Attributes>)
    ensures |Present([a, b, c])| == 3 <==> a.Some? && b.Some? && c.Some?
    ensures a.Some? && b.Some? && c.Some? ==> Present([a, b, c]) == [a.value, b.value, c.value]
  {
    assert [a, b, c][1..] == [b, c] && [b, c][1..] == [c] && [c][1..] == [];
    assert |Present([c])| <= 1 && |Present([b, c])| <= 2;
  }

  lemma TwoNames(r: Readings, auth: string, flow: string)
    requires IsAuth(auth) && IsFlow(flow) && auth in r.parsed && flow in r.parsed && auth in r.legacy
    ensures var names := [auth, flow];
            && AuthNames(names) == [auth] && FlowNames(names) == [flow]
            && Selected(r, names) == Present([r.parsed[auth], r.parsed[flow], r.legacy[auth]])
  {
    RolesDiffer(auth, flow);
    var names := [auth, flow];
    FilterTwo(auth, flow, (name: string) => IsAuth(name));
    FilterTwo(auth, flow, (name: string) => IsFlow(name));
    FirstOccurrencesOfTwo(auth, flow);
    ValuesOfTwo(r.parsed, auth, flow);
    ValuesOfTwo(r.legacy, auth, auth);
    assert Values(r.parsed, names) + Values(r.legacy, [auth]) == [r.parsed[auth], r.parsed[flow], r.legacy[auth]];
  }

  /** The three readings that decide the two-name verdict. */
  predicate AllThree(current: Option<Attributes>, step: Option<Attributes>, legacy: Option<Attributes>, secure: bool) {
    && Clears(current, "/", "lax", secure) && Clears(step, "/api/v1", "strict", secure)
    && legacy.Some? && Clearing(legacy.value, secure)
  }

  /** The tests over names, spelled out for one authentication and one flow name. */
  lemma FoundInTwo(r: Readings, auth: string, flow: string)
    ensures (forall name :: name in [auth, flow] ==> Found(r.parsed, name)) <==>
              Found(r.parsed, auth) && Found(r.parsed, flow)
    ensures (forall name :: name in [auth] ==> Found(r.legacy, name)) <==> Found(r.legacy, auth)
  {
    assert forall name :: name in [auth, flow] <==> name == auth || name == flow;
  }

  lemma InventoryOfTwo(r: Readings, auth: string, flow: string)
    requires IsAuth(auth) && IsFlow(flow) && auth in r.parsed && flow in r.parsed && auth in r.legacy
    ensures ExactInventory(r, [auth, flow]) <==> r.parsed[auth].Some? && r.parsed[flow].Some? && r.legacy[auth].Some?
    ensures ExactInventory(r, [auth, flow]) ==>
              Selected(r, [auth, flow]) == [r.parsed[auth].value, r.parsed[flow].value, r.legacy[auth].value]
  {
    TwoNames(r, auth, flow);
    PresentThree(r.parsed[auth], r.parsed[flow], r.legacy[auth]);
    FoundInTwo(r, auth, flow);
  }

  lemma JudgeExactly(r: Readings, auth: string, flow: string, secure: bool)
    requires IsAuth(auth) && IsFlow(flow) && auth in r.parsed && flow in r.parsed && auth in r.legacy
    ensures && Judge(r, [auth, flow], secure) == EXPECTED
            && JudgeCleared(r, [auth, flow]) == map[auth := true, flow := true]
            <==> AllThree(r.parsed[auth], r.parsed[flow], r.legacy[auth], secure)
  {
    RolesDiffer(auth, flow);
    ContractOfTwo(r, auth, flow, secure);
    ClearedOfTwo(r, auth, flow);
  }

  /** The part of a clearing header that the contract's flags check. */
  predicate Flagged(attributes: Attributes, secure: bool) {
    FlagExact(attributes, "httponly") && SecureParityExact(attributes, secure) && "domain" !in attributes
  }

  lemma FlagsOfThree(a: Attributes, b: Attributes, c: Attributes, secure: bool)
    ensures var s := [a, b, c];
            AllHttpOnly(s) && AllSecureParity(s, secure) && AllHostOnly(s) <==>
            Flagged(a, secure) && Flagged(b, secure) && Flagged(c, secure)
  {
    var s := [a, b, c];
    assert s[0] == a && s[1] == b && s[2] == c;
  }

  lemma ContractOfTwo(r: Readings, auth: string, flow: string, secure: bool)
    requires IsAuth(auth) && IsFlow(flow) && auth in r.parsed && flow in r.parsed && auth in r.legacy
    ensures Judge(r, [auth, flow], secure) == EXPECTED <==>
            && r.parsed[auth].Some? && r.parsed[flow].Some? && r.legacy[auth].Some?
            && Has(r.parsed[auth].value, "/", "lax") && Has(r.parsed[flow].value, "/api/v1", "strict")
            && Flagged(r.parsed[auth].value, secure) && Flagged(r.parsed[flow].value, secure)
            && Flagged(r.legacy[auth].value, secure)
  {
    TwoNames(r, auth, flow);
    InventoryOfTwo(r, auth, flow);
    if ExactInventory(r, [auth, flow]) {
      FlagsOfThree(r.parsed[auth].value, r.parsed[flow].value, r.legacy[auth].value, secure);
    }
  }

  lemma ClearedOfTwo(r: Readings, auth: string, flow: string)
    requires IsAuth(auth) && !IsAuth(flow) && auth != flow
    ensures JudgeCleared(r, [auth, flow]) == map[auth := true, flow := true] <==>
            MaxAgeZero(r.parsed, auth) && MaxAgeZero(r.legacy, auth) && MaxAgeZero(r.parsed, flow)
  {
    var cleared := JudgeCleared(r, [auth, flow]);
    assert auth in [auth, flow] && flow in [auth, flow];
    assert forall name :: name in [auth, flow] <==> name == auth || name == flow;
    assert cleared.Keys == {auth, flow};
    var m := map[auth := true, flow := true];
    assert m.Keys == {auth, flow} && m[auth] && m[flow];
    assert cleared == m <==> cleared[auth] && cleared[flow];
  }

  lemma MatchingOfTwo(items: seq<Option<Attributes>>, path: string, sameSite: string)
    requires |items| == 2
    ensures Matching(items, path, sameSite) ==
              (if items[0].Some? && Has(items[0].value, path, sameSite) then [items[0].value] else [])
              + (if items[1].Some? && Has(items[1].value, path, sameSite) then [items[1].value] else [])
  {
    assert items[1..] == [items[1]] && [items[1]][1..] == [];
    assert Matching([], path, sameSite) == [];
  }

  lemma OneOfEachMeans(items: seq<Option<Attributes>>, secure: bool)
    ensures var current, legacy := OneOfTwo(items, "/", "lax"), OneOfTwo(items, "/api/v1", "strict");
            && (current.Some? ==> Has(current.value, "/", "lax"))
            && (legacy.Some? ==> Has(legacy.value, "/api/v1", "strict"))
            && (OneOfEach(items, secure) <==>
                Clears(current, "/", "lax", secure) && legacy.Some? && Clearing(legacy.value, secure))
  {
    if |items| == 2 {
      MatchingOfTwo(items, "/", "lax");
      MatchingOfTwo(items, "/api/v1", "strict");
    }
  }

  /** The verdict is positive exactly when the headers of the two names are one current auth header, one
      legacy auth header and one flow header, each clearing with the exact attributes. */
  lemma PassesExactly(headers: seq<string>, auth: string, flow: string, secure: bool)
    requires IsAuth(auth) && IsFlow(flow)
    ensures Passes(headers, auth, flow, secure) <==> ExactHeaders(headers, auth, flow, secure)
  {
    RolesDiffer(auth, flow);
    var r := Read(headers, [auth, flow]);
    assert auth in [auth, flow] && flow in [auth, flow];
    JudgeExactly(r, auth, flow, secure);
    OneOfEachMeans(ParseEach(HeadersFor(headers, auth), auth), secure);
  }

  // ----- order and unrelated headers do not matter -----

  lemma PermutedItems(one: seq<string>, other: seq<string>, name: string)
    requires multiset(one) == multiset(other)
    ensures multiset(HeadersFor(one, name)) == multiset(HeadersFor(other, name))
  {
    forall h ensures multiset(HeadersFor(one, name))[h] == multiset(HeadersFor(other, name))[h] {
      FilterCount(one, (header: string) => Names(header, name), h);
      FilterCount(other, (header: string) => Names(header, name), h);
    }
  }

  lemma SmallPermutation(a: seq<string>, b: seq<string>)
    requires multiset(a) == multiset(b)
    ensures |a| == |b|
    ensures |a| == 1 ==> a == b
    ensures |a| == 2 ==> a == b || a == [b[1], b[0]]
  {
    assert |multiset(a)| == |a| && |multiset(b)| == |b|;
    if |a| == 1 {
      assert a[0] in multiset(b);
    }
    if |a| == 2 {
      assert a == [a[0], a[1]] && b == [b[0], b[1]];
      assert a[0] in multiset(b) && a[1] in multiset(b) && b[0] in multiset(a) && b[1] in multiset(a);
    }
  }

  lemma OneOfTwoSwapped(items: seq<Option<Attributes>>, path: string, sameSite: string)
    requires |items| == 2
    ensures OneOfTwo([items[1], items[0]], path, sameSite) == OneOfTwo(items, path, sameSite)
  {
    MatchingOfTwo(items, path, sameSite);
    MatchingOfTwo([items[1], items[0]], path, sameSite);
  }

  /** Readings that are the same up to order select alike. */
  predicate Swapped(a: seq<Option<Attributes>>, b: seq<Option<Attributes>>) {
    a == b || (|a| == |b| == 2 && a == [b[1], b[0]]) || (|a| == |b| > 2)
  }

  lemma SwappedReadsAlike(a: seq<Option<Attributes>>, b: seq<Option<Attributes>>, name: string)
    requires Swapped(a, b)
    ensures ParsedFrom(a, name) == ParsedFrom(b, name)
    ensures OneOfTwo(a, "/api/v1", "strict") == OneOfTwo(b, "/api/v1", "strict")
  {
    if |b| == 2 && a != b {
      OneOfTwoSwapped(b, "/", "lax");
      OneOfTwoSwapped(b, "/api/v1", "strict");
    }
  }

  lemma ParsedSwaps(x: seq<string>, y: seq<string>, name: string)
    requires x == y || (|x| == |y| == 2 && x == [y[1], y[0]]) || |x| == |y| > 2
    ensures Swapped(ParseEach(x, name), ParseEach(y, name))
  {
  }

  predicate ReadsAlike(one: seq<string>, other: seq<string>, name: string) {
    var a, b := ParseEach(HeadersFor(one, name), name), ParseEach(HeadersFor(other, name), name);
    ParsedFrom(a, name) == ParsedFrom(b, name) && OneOfTwo(a, "/api/v1", "strict") == OneOfTwo(b, "/api/v1", "strict")
  }

  lemma PermutedReadsAlike(one: seq<string>, other: seq<string>, name: string)
    requires multiset(one) == multiset(other)
    ensures ReadsAlike(one, other, name)
  {
    PermutedItems(one, other, name);
    SmallPermutation(HeadersFor(one, name), HeadersFor(other, name));
    ParsedSwaps(HeadersFor(one, name), HeadersFor(other, name), name);
    SwappedReadsAlike(ParseEach(HeadersFor(one, name), name), ParseEach(HeadersFor(other, name), name), name);
  }

  lemma ReadAlike(one: seq<string>, other: seq<string>, names: seq<string>)
    requires forall name :: name in names ==> ReadsAlike(one, other, name)
    ensures Read(one, names) == Read(other, names)
  {
  }

  /** Permuting the headers changes neither the contract nor the cleared names, whatever the names. */
  lemma VerdictIgnoresOrder(one: seq<string>, other: seq<string>, names: seq<string>, secure: bool)
    requires multiset(one) == multiset(other)
    ensures ClearContract(one, names, secure) == ClearContract(other, names, secure)
  {
    forall name | name in names ensures ReadsAlike(one, other, name) { PermutedReadsAlike(one, other, name); }
    ReadAlike(one, other, names);
  }

  lemma UnrelatedItem(before: seq<string>, header: string, after: seq<string>, name: string)
    requires !Names(header, name)
    ensures HeadersFor(before + [header] + after, name) == HeadersFor(before + after, name)
  {
    var keep := (h: string) => Names(h, name);
    FilterAppend(before + [header], after, keep);
    FilterAppend(before, [header], keep);
    FilterOne(header, keep);
    FilterAppend(before, after, keep);
  }

  /** Headers of other cookies can be inserted anywhere. */
  lemma VerdictIgnoresUnrelated(before: seq<string>, header: string, after: seq<string>, names: seq<string>,
                                secure: bool)
    requires forall name :: name in names ==> !Names(header, name)
    ensures ClearContract(before + [header] + after, names, secure) == ClearContract(before + after, names, secure)
  {
    forall name | name in names ensures ReadsAlike(before + [header] + after, before + after, name) {
      UnrelatedItem(before, header, after, name);
    }
    ReadAlike(before + [header] + after, before + after, names);
  }
}
