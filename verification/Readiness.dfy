/** The cookie readiness observer, which becomes ready when five kinds of valid evidence have been seen
    and expires for good on the first invalid one, and the harness that runs it over every schedule. */
module Readiness {
  import opened Collections
  import opened Common

  datatype Code =
    | ReadinessExpired | ResponseInvalid | PendingAuthorityInvalid | AuthorityInvalid
    | ReadinessIncomplete | AttemptsInvalid | EarlySample

  datatype Outcome = Done | Raised(code: Code)

  datatype Observer = Observer(events: set<string>, expired: bool)

  /** What every observer is armed with. */
  datatype Terms = Terms(origin: string, clientScope: string)

  const FIVE_KINDS := ["start", "state", "commit", "delivery", "cookie"]

  const START_PATH := "/api/v1/auth/student/login/otp/start"
  const STATE_PATH := "/api/v1/auth/student/otp/state"

  datatype Descriptor = Descriptor(verb: string, path: string, status: int)

  function DescriptorOf(kind: string): Option<Descriptor> {
    if kind == "start" then Some(Descriptor("POST", START_PATH, 202))
    else if kind == "state" then Some(Descriptor("GET", STATE_PATH, 200))
    else None
  }

  predicate SettledResponse(terms: Terms, descriptor: Descriptor, response: Value) {
    && response.Get("url") == Text(terms.origin + descriptor.path)
    && response.Get("method") == Text(descriptor.verb)
    && response.Get("status_code") == Integer(descriptor.status)
    && response.Get("body_settled") == Boolean(true)
    && response.Get("redirected") == Boolean(false)
  }

  predicate PendingBody(body: Value) {
    && body.Get("status") == Text("pending")
    && body.Get("purpose") == Text("login")
    && body.Get("expires_in_seconds").Integer?
    && body.Get("expires_in_seconds").number > 0
  }

  predicate ValidResponse(terms: Terms, kind: string, response: Value) {
    && DescriptorOf(kind).Some? && SettledResponse(terms, DescriptorOf(kind).value, response)
    && PendingBody(response.Get("body"))
  }

  predicate ValidAuthority(terms: Terms, kind: string, proven: Value, clientScope: string) {
    kind in {"commit", "delivery", "cookie"} && proven == Boolean(true) && clientScope == terms.clientScope
  }

  class CookieReadiness {
    const terms: Terms
    var events: set<string>
    var expired: bool

    constructor Arm(terms: Terms)
      ensures this.terms == terms && events == {} && !expired
    {
      this.terms := terms;
      events, expired := {}, false;
    }

    function State(): Observer
      reads this
    {
      Observer(events, expired)
    }

    method ObserveResponse(kind: string, response: Value) returns (outcome: Outcome)
      modifies this
      ensures State() == After(terms, old(State()), ResponseSeen(kind, response))
      ensures outcome.Done? <==> !old(expired) && ValidResponse(terms, kind, response)
      ensures old(expired) ==> outcome == Raised(ReadinessExpired)
    {
      if expired { return Raised(ReadinessExpired); }
      var descriptor := DescriptorOf(kind);
      if descriptor.None? || !response.Dict? {
        expired := true;
        return Raised(ResponseInvalid);
      }
      if !SettledResponse(terms, descriptor.value, response) {
        expired := true;
        return Raised(ResponseInvalid);
      }
      if !PendingBody(response.Get("body")) {
        expired := true;
        return Raised(PendingAuthorityInvalid);
      }
      events := events + {kind};
      outcome := Done;
    }

    method ObserveAuthority(kind: string, proven: Value, clientScope: string) returns (outcome: Outcome)
      modifies this
      ensures State() == After(terms, old(State()), AuthoritySeen(kind, proven, clientScope))
      ensures outcome.Done? <==> !old(expired) && ValidAuthority(terms, kind, proven, clientScope)
      ensures old(expired) ==> outcome == Raised(ReadinessExpired)
    {
      if expired { return Raised(ReadinessExpired); }
      if kind !in {"commit", "delivery", "cookie"} || proven != Boolean(true) || clientScope != terms.clientScope {
        expired := true;
        return Raised(AuthorityInvalid);
      }
      events := events + {kind};
      outcome := Done;
    }

    method RequireReady() returns (outcome: Outcome)
      ensures outcome == Ready(State())
    {
      if expired { return Raised(ReadinessExpired); }
      if events != {"start", "state", "commit", "delivery", "cookie"} { return Raised(ReadinessIncomplete); }
      outcome := Done;
    }

    method Expire()
      modifies this
      ensures State() == After(terms, old(State()), Call.Expire)
    {
      expired := true;
    }
  }

  // ----- calls as values -----

  datatype Call =
    | ResponseSeen(kind: string, response: Value)
    | AuthoritySeen(kind: string, proven: Value, clientScope: string)
    | RequireReady
    | Expire

  predicate Valid(terms: Terms, call: Call) {
    match call
    case ResponseSeen(kind, response) => ValidResponse(terms, kind, response)
    case AuthoritySeen(kind, proven, clientScope) => ValidAuthority(terms, kind, proven, clientScope)
    case RequireReady => true
    case Expire => false
  }

  function Evidence(call: Call): set<string> {
    if call.ResponseSeen? || call.AuthoritySeen? then {call.kind} else {}
  }

  function After(terms: Terms, o: Observer, call: Call): Observer {
    if o.expired then o
    else if Valid(terms, call) then Observer(o.events + Evidence(call), false)
    else Observer(o.events, true)
  }

  function Ready(o: Observer): Outcome {
    if o.expired then Raised(ReadinessExpired)
    else if o.events != Elements(FIVE_KINDS) then Raised(ReadinessIncomplete)
    else Done
  }

  function Run(terms: Terms, calls: seq<Call>): Observer {
    if calls == [] then Observer({}, false)
    else After(terms, Run(terms, calls[..|calls| - 1]), calls[|calls| - 1])
  }

  // ----- what readiness means -----

  predicate Covered(kind: string, calls: seq<Call>) {
    exists i :: 0 <= i < |calls| && kind in Evidence(calls[i])
  }

  predicate AllValid(terms: Terms, calls: seq<Call>) {
    forall i :: 0 <= i < |calls| ==> Valid(terms, calls[i])
  }

  lemma CoveredAppend(kind: string, init: seq<Call>, last: Call)
    ensures Covered(kind, init + [last]) <==> Covered(kind, init) || kind in Evidence(last)
  {
    var calls := init + [last];
    if Covered(kind, init) {
      var i :| 0 <= i < |init| && kind in Evidence(init[i]);
      assert calls[i] == init[i];
    }
    assert calls[|init|] == last;
    assert forall i :: 0 <= i < |init| ==> calls[i] == init[i];
  }

  lemma {:induction false} RunExpired(terms: Terms, calls: seq<Call>)
    ensures Run(terms, calls).expired <==> !AllValid(terms, calls)
  {
    if calls != [] {
      var init, last := calls[..|calls| - 1], calls[|calls| - 1];
      RunExpired(terms, init);
      assert AllValid(terms, calls) <==> AllValid(terms, init) && Valid(terms, last);
    }
  }

  lemma {:induction false} RunEvents(terms: Terms, calls: seq<Call>, kind: string)
    requires AllValid(terms, calls)
    ensures kind in Run(terms, calls).events <==> Covered(kind, calls)
  {
    if calls != [] {
      var init, last := calls[..|calls| - 1], calls[|calls| - 1];
      RunEvents(terms, init, kind);
      RunExpired(terms, init);
      CoveredAppend(kind, init, last);
      assert calls == init + [last];
    }
  }

  lemma {:induction false} RunKinds(terms: Terms, calls: seq<Call>)
    ensures Run(terms, calls).events <= Elements(FIVE_KINDS)
  {
    if calls != [] {
      RunKinds(terms, calls[..|calls| - 1]);
      ValidKinds(terms, calls[|calls| - 1]);
    }
  }

  lemma ValidKinds(terms: Terms, call: Call)
    ensures Valid(terms, call) ==> Evidence(call) <= Elements(FIVE_KINDS)
  {
  }

  /** For any calls, with repeats: ready exactly when every observation was valid, none expired the
      observer and each of the five kinds was observed. */
  lemma ReadyExactly(terms: Terms, calls: seq<Call>)
    ensures Ready(Run(terms, calls)).Done? <==>
            AllValid(terms, calls) && forall kind :: kind in FIVE_KINDS ==> Covered(kind, calls)
  {
    RunExpired(terms, calls);
    RunKinds(terms, calls);
    if AllValid(terms, calls) {
      forall kind ensures kind in Run(terms, calls).events <==> Covered(kind, calls) { RunEvents(terms, calls, kind); }
    }
    var o := Run(terms, calls);
    assert o.events == Elements(FIVE_KINDS) <==> forall kind :: kind in FIVE_KINDS ==> kind in o.events;
  }

  /** The verdict, with its error code, does not depend on the order of the calls. */
  lemma ReadyIgnoresOrder(terms: Terms, calls: seq<Call>, shuffled: seq<Call>)
    requires multiset(calls) == multiset(shuffled)
    ensures Ready(Run(terms, calls)) == Ready(Run(terms, shuffled))
  {
    RunExpired(terms, calls);
    RunExpired(terms, shuffled);
    SameCalls(terms, calls, shuffled);
    SameCalls(terms, shuffled, calls);
    ReadyExactly(terms, calls);
    ReadyExactly(terms, shuffled);
  }

  lemma SameCalls(terms: Terms, calls: seq<Call>, others: seq<Call>)
    requires multiset(calls) == multiset(others)
    ensures AllValid(terms, others) ==> AllValid(terms, calls)
    ensures forall kind :: Covered(kind, calls) ==> Covered(kind, others)
  {
    forall i | 0 <= i < |calls| ensures calls[i] in others {
      assert calls[i] in multiset(calls);
      assert calls[i] in multiset(others);
    }
    forall kind | Covered(kind, calls) ensures Covered(kind, others) {
      var i :| 0 <= i < |calls| && kind in Evidence(calls[i]);
      var j :| 0 <= j < |others| && others[j] == calls[i];
      assert kind in Evidence(others[j]);
    }
  }

  /** One invalid observation expires the observer for good: every later call leaves it as it is, and
      no later require_ready succeeds. */
  lemma {:induction false} InvalidForever(terms: Terms, before: seq<Call>, bad: Call, later: seq<Call>)
    requires !Valid(terms, bad)
    ensures Run(terms, before + [bad] + later) == Run(terms, before + [bad])
    ensures Ready(Run(terms, before + [bad] + later)) == Raised(ReadinessExpired)
  {
    var calls := before + [bad] + later;
    if later == [] {
      assert calls == before + [bad];
      assert calls[..|calls| - 1] == before;
    } else {
      InvalidForever(terms, before, bad, later[..|later| - 1]);
      assert calls[..|calls| - 1] == before + [bad] + later[..|later| - 1];
    }
  }

  // ----- the seeded harness -----

  function Without<T>(s: seq<T>, i: nat): seq<T>
    requires i < |s|
  {
    s[..i] + s[i + 1..]
  }

  /** The permutations that put s[0], then s[1], and so on up to s[n - 1] first, in itertools' order. */
  function PermutationsFrom<T>(s: seq<T>, n: nat): seq<seq<T>>
    requires n <= |s|
    decreases |s|, n
  {
    if n == 0 then []
    else PermutationsFrom(s, n - 1) + Prepend(s[n - 1], Permutations(Without(s, n - 1)))
  }

  function Permutations<T>(s: seq<T>): seq<seq<T>>
    decreases |s|, |s| + 1
  {
    if s == [] then [[]] else PermutationsFrom(s, |s|)
  }

  function Prepend<T>(x: T, tails: seq<seq<T>>): (lists: seq<seq<T>>)
    ensures |lists| == |tails|
    ensures forall i :: 0 <= i < |lists| ==> lists[i] == [x] + tails[i]
  {
    seq(|tails|, i requires 0 <= i < |tails| => [x] + tails[i])
  }

  function Factorial(n: nat): nat {
    if n == 0 then 1 else n * Factorial(n - 1)
  }

  lemma {:induction false} PermutationsFromCount<T>(s: seq<T>, n: nat)
    requires n <= |s|
    ensures n > 0 ==> |PermutationsFrom(s, n)| == n * Factorial(|s| - 1)
    ensures n == 0 ==> PermutationsFrom(s, n) == []
    decreases |s|, n
  {
    if n > 0 {
      PermutationsFromCount(s, n - 1);
      PermutationsCount(Without(s, n - 1));
      var each := Factorial(|s| - 1);
      assert |Permutations(Without(s, n - 1))| == each;
      assert n * each == (n - 1) * each + each;
    }
  }

  lemma {:induction false} PermutationsCount<T>(s: seq<T>)
    ensures |Permutations(s)| == Factorial(|s|)
    decreases |s|, |s| + 1
  {
    if s != [] { PermutationsFromCount(s, |s|); }
  }

  lemma WithoutSplits<T>(s: seq<T>, i: nat)
    requires i < |s|
    ensures multiset(s) == multiset{s[i]} + multiset(Without(s, i))
  {
    assert s == s[..i] + [s[i]] + s[i + 1..];
  }

  /** Every generated list is a permutation of s. */
  lemma {:induction false} PermutationsSound<T>(s: seq<T>, n: nat)
    requires n <= |s|
    ensures forall p :: p in PermutationsFrom(s, n) ==> multiset(p) == multiset(s)
    ensures n == |s| ==> forall p :: p in Permutations(s) ==> multiset(p) == multiset(s)
    decreases |s|, n
  {
    if n > 0 {
      PermutationsSound(s, n - 1);
      var rest := Without(s, n - 1);
      PermutationsSound(rest, |rest|);
      WithoutSplits(s, n - 1);
      var tails := Permutations(rest);
      var last := Prepend(s[n - 1], tails);
      forall i | 0 <= i < |last| ensures multiset(last[i]) == multiset(s) {
        assert tails[i] in tails;
      }
    }
  }

  lemma RestIsPermutation<T>(s: seq<T>, i: nat, p: seq<T>)
    requires i < |s| && p != [] && s[i] == p[0] && multiset(p) == multiset(s)
    ensures multiset(p[1..]) == multiset(Without(s, i))
  {
    WithoutSplits(s, i);
    assert p == [p[0]] + p[1..];
    assert multiset(p[1..]) == multiset(p) - multiset{p[0]};
  }

  lemma PrependHas<T>(x: T, tails: seq<seq<T>>, p: seq<T>)
    requires p != [] && p[0] == x && p[1..] in tails
    ensures p in Prepend(x, tails)
  {
    var j :| 0 <= j < |tails| && tails[j] == p[1..];
    assert p == [x] + p[1..];
    assert Prepend(x, tails)[j] == p;
  }

  /** Every permutation of s is generated. */
  lemma {:induction false} PermutationsComplete<T>(s: seq<T>, p: seq<T>)
    requires multiset(p) == multiset(s)
    ensures p in Permutations(s)
    decreases |s|
  {
    assert |p| == |multiset(p)| == |s|;
    if s != [] {
      assert p[0] in multiset(s);
      var i :| 0 <= i < |s| && s[i] == p[0];
      RestIsPermutation(s, i, p);
      PermutationsComplete(Without(s, i), p[1..]);
      PrependHas(p[0], Permutations(Without(s, i)), p);
      FromIsMonotone(s, i + 1, |s|, p);
    }
  }

  lemma {:induction false} FromIsMonotone<T>(s: seq<T>, m: nat, n: nat, p: seq<T>)
    requires m <= n <= |s| && p in PermutationsFrom(s, m)
    ensures p in PermutationsFrom(s, n)
    decreases n
  {
    if m < n { FromIsMonotone(s, m, n - 1, p); }
  }

  const SEEDED := Terms("https://testserver", "seeded")

  function SeededResponse(kind: string): Value {
    var start := kind == "start";
    Dict(map[
      "url" := Text("https://testserver/api/v1/auth/student/" + if start then "login/otp/start" else "otp/state"),
      "method" := Text(if start then "POST" else "GET"),
      "status_code" := Integer(if start then 202 else 200),
      "body_settled" := Boolean(true), "redirected" := Boolean(false),
      "body" := Dict(map[
        "status" := Text("pending"), "purpose" := Text("login"), "expires_in_seconds" := Integer(120)])])
  }

  lemma SeededStartUrl()
    ensures "https://testserver" + START_PATH == "https://testserver/api/v1/auth/student/" + "login/otp/start"
  {
  }

  lemma SeededStateUrl()
    ensures "https://testserver" + STATE_PATH == "https://testserver/api/v1/auth/student/" + "otp/state"
  {
  }

  lemma SeededResponsesAreValid(kind: string)
    requires kind == "start" || kind == "state"
    ensures ValidResponse(SEEDED, kind, SeededResponse(kind))
  {
    SeededStartUrl();
    SeededStateUrl();
    var r := SeededResponse(kind);
    assert PendingBody(r.Get("body"));
    assert SettledResponse(SEEDED, DescriptorOf(kind).value, r);
  }

  lemma FiveKinds()
    ensures Distinct(FIVE_KINDS)
    ensures forall kind :: kind in FIVE_KINDS <==> kind in {"start", "state", "commit", "delivery", "cookie"}
    ensures |Elements(FIVE_KINDS)| == 5
  {
    assert FIVE_KINDS[0] == "start" && FIVE_KINDS[1] == "state" && FIVE_KINDS[2] == "commit";
    assert FIVE_KINDS[3] == "delivery" && FIVE_KINDS[4] == "cookie";
    assert |FIVE_KINDS[0]| == 5 && |FIVE_KINDS[1]| == 5 && FIVE_KINDS[0][4] != FIVE_KINDS[1][4];
    assert |FIVE_KINDS[2]| == 6 && |FIVE_KINDS[3]| == 8 && |FIVE_KINDS[4]| == 6 && FIVE_KINDS[2][1] == FIVE_KINDS[4][1];
    assert FIVE_KINDS[2][2] != FIVE_KINDS[4][2];
    ElementsOfSeq(FIVE_KINDS);
  }

  datatype Variance = Completed(schedules: nat) | Failed(outcome: Outcome)

  lemma ScheduleFacts(order: seq<string>)
    requires multiset(order) == multiset(FIVE_KINDS)
    ensures |order| == 5 && Elements(order) == Elements(FIVE_KINDS)
    ensures forall kind :: kind in order ==> kind in {"start", "state", "commit", "delivery", "cookie"}
    ensures forall n: nat | n < 5 :: Elements(order[..n]) != Elements(FIVE_KINDS)
  {
    FiveKinds();
    assert |order| == |multiset(order)| == |multiset(FIVE_KINDS)| == 5;
    assert forall kind :: kind in order <==> kind in multiset(order);
    assert forall kind :: kind in FIVE_KINDS <==> kind in multiset(FIVE_KINDS);
    forall n: nat | n < 5 ensures |Elements(order[..n])| < 5 { ElementsOfSeq(order[..n]); }
  }

  method ObserveSeeded(observer: CookieReadiness, kind: string) returns (result: Outcome)
    requires observer.terms == SEEDED && !observer.expired
    requires kind in {"start", "state", "commit", "delivery", "cookie"}
    modifies observer
    ensures result.Done? && !observer.expired && observer.events == old(observer.events) + {kind}
  {
    if kind == "start" || kind == "state" {
      SeededResponsesAreValid(kind);
      result := observer.ObserveResponse(kind, SeededResponse(kind));
    } else {
      result := observer.ObserveAuthority(kind, Boolean(true), "seeded");
    }
  }

  /** One schedule: observe the kinds in order; any proper prefix must leave the observer incomplete. */
  method RunSchedule(order: seq<string>) returns (result: Outcome)
    requires multiset(order) == multiset(FIVE_KINDS)
    ensures result.Done?
  {
    ScheduleFacts(order);
    var observer := new CookieReadiness.Arm(SEEDED);
    var index := 0;
    while index < |order|
      invariant 0 <= index <= |order|
      invariant !observer.expired && observer.events == Elements(order[..index]) && observer.terms == SEEDED
    {
      var kind := order[index];
      assert order[..index + 1] == order[..index] + [kind];
      assert kind in order;
      result := ObserveSeeded(observer, kind);
      if result.Raised? { return; }
      assert observer.events == Elements(order[..index + 1]);
      if index < 4 {
        result := observer.RequireReady();
        if result.Done? { return Raised(EarlySample); }
        if result.code != ReadinessIncomplete { return; }
      }
      index := index + 1;
    }
    assert order[..index] == order;
    result := observer.RequireReady();
  }

  /** For one attempt, all 120 schedules complete: none fails and none samples a proper prefix as ready. */
  method RunSeededVariance(attempts: Value) returns (result: Variance)
    ensures attempts == Integer(1) ==> result == Completed(120)
    ensures attempts != Integer(1) ==> result == Failed(Raised(AttemptsInvalid))
  {
    if attempts != Integer(1) { return Failed(Raised(AttemptsInvalid)); }
    var schedules := Permutations(FIVE_KINDS);
    PermutationsSound(FIVE_KINDS, |FIVE_KINDS|);
    PermutationsCount(FIVE_KINDS);
    var completed := 0;
    for i := 0 to |schedules|
      invariant completed == i
    {
      assert schedules[i] in schedules;
      var outcome := RunSchedule(schedules[i]);
      if outcome.Raised? { return Failed(outcome); }
      completed := completed + 1;
    }
    assert Factorial(5) == 120;
    result := Completed(completed);
  }
}
