/** What the delivery protocol still guarantees when a provider call is two critical sections with a wait
    between them, and exactly when it delivers a key twice. */
module BlockingDelivery {
  import opened Common
  import opened Text
  import opened Outbox
  import opened Delivery
  import P = Provider

  /** A claimant of this key is let into the provider. */
  predicate StartsCall(s: State, e: Event, key: string) {
    e.Call? && MayCall(s, e.worker, e.section) && !e.section.Second? && s.workers[e.worker].job.key == key
  }

  /** A claimant of this key is in a critical section that files a receipt under it, unless one is on file. */
  predicate Files(s: State, e: Event, key: string) {
    e.Call? && MayCall(s, e.worker, e.section) && !e.section.First? && s.workers[e.worker].job.key == key
  }

  // ----- schedules -----

  /** Some call for the key has started. */
  predicate Started(events: seq<Event>, key: string) {
    events != []
    && (Started(events[..|events| - 1], key)
        || StartsCall(Run(START, events[..|events| - 1]), events[|events| - 1], key))
  }

  /** Some call for the key has reached a section that files. */
  predicate Filed(events: seq<Event>, key: string) {
    events != []
    && (Filed(events[..|events| - 1], key) || Files(Run(START, events[..|events| - 1]), events[|events| - 1], key))
  }

  /** No two calls for the key start before the first one that files: each starts only when none has
      started or one has filed. */
  predicate OneCallBeforeFiling(events: seq<Event>, key: string) {
    events == []
    || var before := events[..|events| - 1];
       && OneCallBeforeFiling(before, key)
       && (StartsCall(Run(START, before), events[|events| - 1], key) ==> !Started(before, key) || Filed(before, key))
  }

  lemma RunAppends(events: seq<Event>, e: Event, key: string)
    ensures Run(START, events + [e]) == Apply(Run(START, events), e)
    ensures Acceptances(events + [e], key) ==
            Acceptances(events, key) + if Accepts(Run(START, events), e, key) then 1 else 0
    ensures Started(events + [e], key) <==> Started(events, key) || StartsCall(Run(START, events), e, key)
    ensures Filed(events + [e], key) <==> Filed(events, key) || Files(Run(START, events), e, key)
  {
    assert (events + [e])[..|events|] == events;
  }

  lemma AcceptsExactly(s: State, e: Event, key: string)
    ensures Accepts(s, e, key) <==> StartsCall(s, e, key) && key !in s.provider.receipts
  {
  }

  lemma ProviderRests(s: State, e: Event)
    requires !(e.Call? && MayCall(s, e.worker, e.section))
    ensures Apply(s, e).provider == s.provider
  {
  }

  /** Every section but the first of the blocking double leaves a receipt under its key. */
  lemma SectionFiles(section: Section, p: P.Ledger, job: Job, key: string)
    ensures key in CallProvider(section, p, job).0.receipts <==>
            key in p.receipts || (!section.First? && key == job.key)
  {
  }

  lemma FilesExactly(s: State, e: Event, key: string)
    ensures key in Apply(s, e).provider.receipts <==> key in s.provider.receipts || Files(s, e, key)
  {
    if e.Call? && MayCall(s, e.worker, e.section) {
      SectionFiles(e.section, s.provider, s.workers[e.worker].job, key);
    } else {
      ProviderRests(s, e);
    }
  }

  /** The provider has a receipt under the key exactly when some call has reached a section that files. */
  lemma {:induction false} ReceiptsExactly(events: seq<Event>, key: string)
    ensures key in Run(START, events).provider.receipts <==> Filed(events, key)
  {
    if events != [] {
      var before, e := events[..|events| - 1], events[|events| - 1];
      ReceiptsExactly(before, key);
      FilesExactly(Run(START, before), e, key);
    }
  }

  /** As long as nothing has filed, every start is a delivery. */
  lemma {:induction false} StartsDeliver(events: seq<Event>, key: string)
    requires !Filed(events, key)
    ensures Acceptances(events, key) > 0 <==> Started(events, key)
  {
    if events != [] {
      var before, e := events[..|events| - 1], events[|events| - 1];
      StartsDeliver(before, key);
      ReceiptsExactly(before, key);
      AcceptsExactly(Run(START, before), e, key);
    }
  }

  /** Whatever doubles are called, a key is delivered at most once exactly when no two calls for it start
      before the first one that files a receipt. */
  lemma {:induction false} DeliveredOnceExactly(events: seq<Event>, key: string)
    ensures Acceptances(events, key) <= 1 <==> OneCallBeforeFiling(events, key)
  {
    if events != [] {
      var before, e := events[..|events| - 1], events[|events| - 1];
      DeliveredOnceExactly(before, key);
      ReceiptsExactly(before, key);
      AcceptsExactly(Run(START, before), e, key);
      if !Filed(before, key) { StartsDeliver(before, key); }
    }
  }

  /** A call for the key starts at this place of the run. */
  predicate StartsAt(events: seq<Event>, i: nat, key: string) {
    i < |events| && StartsCall(Run(START, events[..i]), events[i], key)
  }

  lemma {:induction false} StartedAt(events: seq<Event>, key: string)
    ensures Started(events, key) <==> exists i: nat :: StartsAt(events, i, key)
  {
    if events != [] {
      var before := events[..|events| - 1];
      StartedAt(before, key);
      forall i: nat | i < |before| ensures StartsAt(before, i, key) <==> StartsAt(events, i, key) {
        assert before[..i] == events[..i];
      }
      assert StartsAt(events, |before|, key) <==> StartsCall(Run(START, before), events[|before|], key);
      if i: nat :| StartsAt(before, i, key) { assert StartsAt(events, i, key); }
      if i: nat :| StartsAt(events, i, key) && i < |before| { assert StartsAt(before, i, key); }
    }
  }

  predicate FiledBetween(events: seq<Event>, i: nat, j: nat, key: string) {
    i < j && StartsAt(events, i, key) && StartsAt(events, j, key) ==> Filed(events[..j], key)
  }

  ghost predicate AllFiledBetween(events: seq<Event>, key: string) {
    forall i: nat, j: nat :: FiledBetween(events, i, j, key)
  }

  lemma PlaceOfPrefix(events: seq<Event>, n: nat, i: nat, key: string)
    requires i < n <= |events|
    ensures StartsAt(events[..n], i, key) <==> StartsAt(events, i, key)
  {
    assert events[..n][..i] == events[..i];
  }

  lemma BetweenOfPrefix(events: seq<Event>, n: nat, i: nat, j: nat, key: string)
    requires j < n <= |events|
    ensures FiledBetween(events[..n], i, j, key) <==> FiledBetween(events, i, j, key)
  {
    assert events[..n][..j] == events[..j];
    PlaceOfPrefix(events, n, j, key);
    if i < j { PlaceOfPrefix(events, n, i, key); }
  }

  /** The pairs that end at the last place. */
  lemma BetweenAtEnd(before: seq<Event>, e: Event, key: string)
    ensures (StartsCall(Run(START, before), e, key) ==> !Started(before, key) || Filed(before, key)) <==>
            forall i: nat :: FiledBetween(before + [e], i, |before|, key)
  {
    var events, n := before + [e], |before|;
    assert events[..n] == before;
    StartedAt(before, key);
    forall i: nat | i < n ensures StartsAt(before, i, key) <==> StartsAt(events, i, key) {
      PlaceOfPrefix(events, n, i, key);
    }
    if Started(before, key) {
      var i: nat :| StartsAt(before, i, key);
      assert FiledBetween(events, i, n, key) <==> (StartsAt(events, n, key) ==> Filed(before, key));
    }
  }

  /** The schedule condition over places: of any two calls for the key, the later one starts after some
      call has filed. */
  lemma {:induction false} OneCallMeans(events: seq<Event>, key: string)
    ensures OneCallBeforeFiling(events, key) <==> AllFiledBetween(events, key)
  {
    if events != [] {
      var n := |events| - 1;
      var before := events[..n];
      OneCallMeans(before, key);
      BetweenAtEnd(before, events[n], key);
      assert events == before + [events[n]];
      forall i: nat, j: nat | j < n ensures FiledBetween(before, i, j, key) <==> FiledBetween(events, i, j, key) {
        BetweenOfPrefix(events, n, i, j, key);
      }
      assert forall i: nat, j: nat :: j >= n ==> FiledBetween(before, i, j, key);
      assert forall i: nat, j: nat :: j > n ==> FiledBetween(events, i, j, key);
    }
  }

  // ----- at least once -----

  ghost predicate DeliveredIfHeldOrFiled(s: State, events: seq<Event>) {
    && (forall key :: key in s.provider.receipts ==> Acceptances(events, key) > 0)
    && (forall w :: w in s.workers && s.workers[w].Entered? ==> Acceptances(events, s.workers[w].job.key) > 0)
  }

  lemma HeldOrFiledStep(s: State, e: Event, before: seq<Event>, events: seq<Event>)
    requires s == Run(START, before) && events == before + [e]
    requires DeliveredIfHeldOrFiled(s, before)
    ensures DeliveredIfHeldOrFiled(Apply(s, e), events)
  {
    var t := Apply(s, e);
    forall key | key in t.provider.receipts ensures Acceptances(events, key) > 0 {
      FiledStep(s, e, key);
      RunAppends(before, e, key);
      if key !in s.provider.receipts && !Accepts(s, e, key) {
        assert Acceptances(before, s.workers[e.worker].job.key) > 0;
      }
    }
    forall w | w in t.workers && t.workers[w].Entered? ensures Acceptances(events, t.workers[w].job.key) > 0 {
      EnteredStep(s, e, w);
      RunAppends(before, e, t.workers[w].job.key);
    }
  }

  /** A receipt on file was there before, or its call just delivered, or its held call just returned. */
  lemma FiledStep(s: State, e: Event, key: string)
    requires key in Apply(s, e).provider.receipts
    ensures key in s.provider.receipts || Accepts(s, e, key)
            || (e.Call? && e.worker in s.workers && s.workers[e.worker].Entered? && s.workers[e.worker].job.key == key)
  {
    AcceptsExactly(s, e, key);
  }

  /** A held call was held before, or has just entered. */
  lemma EnteredStep(s: State, e: Event, w: nat)
    requires w in Apply(s, e).workers && Apply(s, e).workers[w].Entered?
    ensures var key := Apply(s, e).workers[w].job.key;
            || Accepts(s, e, key) || key in s.provider.receipts
            || (w in s.workers && s.workers[w] == Apply(s, e).workers[w])
  {
    if e.Call? && MayCall(s, e.worker, e.section) {
      CallFrame(s, e.worker, e.section);
      AcceptsExactly(s, e, s.workers[e.worker].job.key);
      if w == e.worker { EnteredCall(s, w, e.section); }
    } else {
      OtherEntered(s, e, w);
    }
  }

  /** Only the first section leaves its claimant inside. */
  lemma EnteredCall(s: State, w: nat, section: Section)
    requires MayCall(s, w, section)
    requires w in ApplyCall(s, w, section).workers && ApplyCall(s, w, section).workers[w].Entered?
    ensures !section.Second?
  {
  }

  lemma OtherEntered(s: State, e: Event, w: nat)
    requires !(e.Call? && MayCall(s, e.worker, e.section))
    requires w in Apply(s, e).workers && Apply(s, e).workers[w].Entered?
    ensures w in s.workers && s.workers[w] == Apply(s, e).workers[w]
  {
  }

  /** A sent row has been delivered at least once, under any doubles and any interleaving. */
  lemma {:induction false} DeliveredAtLeastOnce(events: seq<Event>)
    ensures var s := Run(START, events);
            && DeliveredIfHeldOrFiled(s, events)
            && forall id :: id in s.rows && s.rows[id].status == "sent" ==>
                 Acceptances(events, s.rows[id].providerKey) > 0
  {
    if events != [] {
      var before, e := events[..|events| - 1], events[|events| - 1];
      DeliveredAtLeastOnce(before);
      assert events == before + [e];
      HeldOrFiledStep(Run(START, before), e, before, events);
    }
    StartInv();
    RunKeepsInv(START, events);
  }

  // ----- claims that never overlap -----

  /** Nobody is at work on the row being claimed, and no held call is lost. */
  predicate Calm(s: State, e: Event) {
    && (MayClaim(s, e) ==> forall w :: w in s.workers ==> s.workers[w].job.row != e.id)
    && ((e.Crash? || e.ProviderFails?) && e.worker in s.workers ==> !s.workers[e.worker].Entered?)
  }

  /** Every event of the run is calm where it happens. */
  ghost predicate CalmRun(events: seq<Event>) {
    events == []
    || (CalmRun(events[..|events| - 1]) && Calm(Run(START, events[..|events| - 1]), events[|events| - 1]))
  }

  ghost predicate Alone(s: State) {
    forall v, w :: v in s.workers && w in s.workers && s.workers[v].job.row == s.workers[w].job.row ==> v == w
  }

  ghost predicate HeldWhileUnsettled(s: State, events: seq<Event>) {
    forall key :: Started(events, key) && !Filed(events, key) ==> HeldCall(s, key)
  }

  predicate HeldCall(s: State, key: string) {
    exists w :: w in s.workers && s.workers[w].Entered? && s.workers[w].job.key == key
  }

  lemma AloneStep(s: State, e: Event)
    requires Alone(s) && Calm(s, e)
    ensures Alone(Apply(s, e))
  {
    if e.Call? && MayCall(s, e.worker, e.section) { CallFrame(s, e.worker, e.section); }
  }

  lemma HeldSurvives(s: State, e: Event, w: nat)
    requires Calm(s, e) && w in s.workers && s.workers[w].Entered?
    requires e.Call? && e.worker == w ==> !MayCall(s, e.worker, e.section)
    ensures w in Apply(s, e).workers && Apply(s, e).workers[w] == s.workers[w]
  {
    if e.Call? {
      CallElsewhere(s, e.worker, e.section, w);
    } else {
      OtherHeldSurvives(s, e, w);
    }
  }

  /** A call leaves every other claimant where it is. */
  lemma CallElsewhere(s: State, worker: nat, section: Section, w: nat)
    requires w in s.workers && (worker == w ==> !MayCall(s, worker, section))
    ensures var t := Apply(s, Call(worker, section)); w in t.workers && t.workers[w] == s.workers[w]
  {
  }

  lemma OtherHeldSurvives(s: State, e: Event, w: nat)
    requires Calm(s, e) && w in s.workers && s.workers[w].Entered? && !e.Call?
    ensures w in Apply(s, e).workers && Apply(s, e).workers[w] == s.workers[w]
  {
  }

  lemma HeldStep(s: State, e: Event, before: seq<Event>, key: string)
    requires s == Run(START, before) && HeldWhileUnsettled(s, before) && Calm(s, e)
    requires Started(before + [e], key) && !Filed(before + [e], key)
    ensures HeldCall(Apply(s, e), key)
  {
    RunAppends(before, e, key);
    ReceiptsExactly(before, key);
    if StartsCall(s, e, key) {
      StartIsHeld(s, e, key);
    } else {
      assert HeldCall(s, key);
      var w :| w in s.workers && s.workers[w].Entered? && s.workers[w].job.key == key;
      HeldSurvives(s, e, w);
    }
  }

  lemma StartIsHeld(s: State, e: Event, key: string)
    requires StartsCall(s, e, key) && !Files(s, e, key) && key !in s.provider.receipts
    ensures HeldCall(Apply(s, e), key)
  {
    assert Apply(s, e).workers[e.worker].Entered?;
  }

  /** Two claimants of one key are one claimant. */
  lemma OneClaimantPerKey(s: State, v: nat, w: nat)
    requires Inv(s) && Alone(s) && v in s.workers && w in s.workers && s.workers[v].job.key == s.workers[w].job.key
    ensures v == w
  {
    assert Carries(s, s.workers[v].job) && Carries(s, s.workers[w].job);
  }

  lemma NoStartWhileHeld(s: State, e: Event, key: string)
    requires Inv(s) && Alone(s) && StartsCall(s, e, key)
    ensures !HeldCall(s, key)
  {
    forall w | w in s.workers && s.workers[w].job.key == key ensures w == e.worker {
      OneClaimantPerKey(s, w, e.worker);
    }
  }

  lemma HeldWhileStep(s: State, e: Event, before: seq<Event>)
    requires s == Run(START, before) && HeldWhileUnsettled(s, before) && Calm(s, e)
    ensures HeldWhileUnsettled(Apply(s, e), before + [e])
  {
    forall key | Started(before + [e], key) && !Filed(before + [e], key) ensures HeldCall(Apply(s, e), key) {
      HeldStep(s, e, before, key);
    }
  }

  ghost predicate Quiet(events: seq<Event>) {
    Alone(Run(START, events)) && HeldWhileUnsettled(Run(START, events), events)
  }

  lemma QuietStep(before: seq<Event>, e: Event)
    requires Quiet(before) && Calm(Run(START, before), e)
    ensures Quiet(before + [e])
  {
    RunAppends(before, e, "");
    AloneStep(Run(START, before), e);
    HeldWhileStep(Run(START, before), e, before);
  }

  lemma QuietStart()
    ensures Quiet([])
  {
  }

  lemma {:induction false} CalmRunsKeep(events: seq<Event>)
    requires CalmRun(events)
    ensures Quiet(events)
  {
    if events == [] {
      QuietStart();
    } else {
      var before, e := events[..|events| - 1], events[|events| - 1];
      CalmRunsKeep(before);
      QuietStep(before, e);
      assert events == before + [e];
    }
  }

  /** A calm run meets the schedule condition for every key. */
  lemma {:induction false} CalmRunsStartOnce(events: seq<Event>, key: string)
    requires CalmRun(events)
    ensures OneCallBeforeFiling(events, key)
  {
    if events != [] {
      var before, e := events[..|events| - 1], events[|events| - 1];
      CalmRunsStartOnce(before, key);
      CalmRunsKeep(before);
      StartInv();
      RunKeepsInv(START, before);
      if StartsCall(Run(START, before), e, key) { NoStartWhileHeld(Run(START, before), e, key); }
    }
  }

  /** When claims never overlap and no held call is lost, the blocking double too accepts a key at most
      once, and exactly once when its row is sent. */
  lemma CalmRunsDeliverOnce(events: seq<Event>, id: nat)
    requires CalmRun(events) && id in Run(START, events).rows
    ensures var s := Run(START, events);
            && Acceptances(events, s.rows[id].providerKey) <= 1
            && (s.rows[id].status == "sent" ==> Acceptances(events, s.rows[id].providerKey) == 1)
  {
    var key := Run(START, events).rows[id].providerKey;
    DeliveredAtLeastOnce(events);
    CalmRunsStartOnce(events, key);
    DeliveredOnceExactly(events, key);
  }

  // ----- deliveries of a single row -----

  lemma {:induction false} AcceptancesAreSent(events: seq<Event>, key: string)
    ensures Acceptances(events, key) <= |Run(START, events).provider.sent|
  {
    if events != [] {
      AcceptancesAreSent(events[..|events| - 1], key);
      SentGrows(Run(START, events[..|events| - 1]), events[|events| - 1]);
    }
  }

  lemma SentGrows(s: State, e: Event)
    ensures s.provider.sent <= Apply(s, e).provider.sent && |Apply(s, e).provider.sent| <= |s.provider.sent| + 1
    ensures Apply(s, e).provider.sent != s.provider.sent ==>
              e.Call? && MayCall(s, e.worker, e.section) && Accepts(s, e, s.workers[e.worker].job.key)
    ensures s.rows.Keys <= Apply(s, e).rows.Keys
  {
  }

  /** While there is no other row than this one, what the provider sent is what was accepted under its key. */
  lemma {:induction false} OneRowDeliveries(events: seq<Event>, id: nat)
    requires Run(START, events).rows.Keys <= {id}
    ensures var s := Run(START, events);
            |s.provider.sent| == if id in s.rows then Acceptances(events, s.rows[id].providerKey) else 0
  {
    if events != [] {
      var before, e := events[..|events| - 1], events[|events| - 1];
      var s := Run(START, before);
      SentGrows(s, e);
      OneRowDeliveries(before, id);
      StartInv();
      RunKeepsInv(START, before);
      if id in s.rows {
        RunAppends(before, e, s.rows[id].providerKey);
        KeyNeverChanges(s, [e], id);
        OneStep(s, e);
        if e.Call? && MayCall(s, e.worker, e.section) { assert Carries(s, s.workers[e.worker].job); }
      } else if id in Apply(s, e).rows {
        AcceptancesAreSent(before, Apply(s, e).rows[id].providerKey);
        assert !e.Call?;
      } else {
        assert e.Call? && MayCall(s, e.worker, e.section) ==> Carries(s, s.workers[e.worker].job);
      }
    }
  }

  lemma OneStep(s: State, e: Event)
    ensures Run(s, [e]) == Apply(s, e)
  {
    assert [e][..0] == [];
    assert Run(s, []) == s;
  }

  // ----- both conditions are needed -----

  lemma FirstEntry(key: string, first: string) returns (events: seq<Event>)
    requires LowerHex64(key) && LowerHex64(first)
    ensures events == [Stage(0, key, "d", "c", 3), Claim(1, 0, first, 10), Call(1, First)]
    ensures var s := Run(START, events);
            && Acceptances(events, key) == 1
            && s.workers == map[1 := Entered(Job(0, first, "d", "c", key))]
            && s.rows == map[0 := ClaimRow(StagedRow(key, "d", "c", 3), first, 0, 10)]
            && s.intents == map[0 := ("d", "c")]
            && s.provider.receipts == map[] && s.issued == {first} && s.clock == 0
  {
    RunAppends([], Stage(0, key, "d", "c", 3), key);
    assert [] + [Stage(0, key, "d", "c", 3)] == [Stage(0, key, "d", "c", 3)];
    RunAppends([Stage(0, key, "d", "c", 3)], Claim(1, 0, first, 10), key);
    RunAppends([Stage(0, key, "d", "c", 3), Claim(1, 0, first, 10)], Call(1, First), key);
    events := [Stage(0, key, "d", "c", 3), Claim(1, 0, first, 10)] + [Call(1, First)];
  }

  /** Overlapping claims: the lease runs out while the first call is held, and a second claimant enters. */
  lemma OverlapDeliversTwice(key: string, first: string, second: string) returns (events: seq<Event>)
    requires LowerHex64(key) && LowerHex64(first) && LowerHex64(second) && first != second
    ensures Acceptances(events, key) == 2
    ensures forall i :: 0 <= i < |events| ==> !events[i].Crash? && !events[i].ProviderFails?
  {
    events := FirstEntry(key, first);
    RunAppends(events, Tick(10), key);
    events := events + [Tick(10)];
    RunAppends(events, Claim(2, 0, second, 20), key);
    events := events + [Claim(2, 0, second, 20)];
    RunAppends(events, Call(2, First), key);
    events := events + [Call(2, First)];
  }

  /** The first call is let in, fails without a receipt, and backs off until it is due again. */
  lemma FirstLost(key: string, first: string) returns (events: seq<Event>)
    requires LowerHex64(key) && LowerHex64(first)
    ensures |events| == 6 && Acceptances(events, key) == 1
    ensures var s := Run(START, events);
            && s.workers == map[] && s.provider.receipts == map[] && s.issued == {first} && s.clock == 5
            && s.rows == map[0 := FailedRow(ClaimRow(StagedRow(key, "d", "c", 3), first, 0, 10), 5)]
            && s.intents == map[0 := ("d", "c")]
  {
    events := FirstEntry(key, first);
    RunAppends(events, ProviderFails(1), key);
    events := events + [ProviderFails(1)];
    RunAppends(events, FinaliseFailed(1, 5), key);
    events := events + [FinaliseFailed(1, 5)];
    RunAppends(events, Tick(5), key);
    events := events + [Tick(5)];
  }

  /** A lost call: claims do not overlap, but the first delivery ends in a failure that files no receipt. */
  lemma LostCallDeliversTwice(key: string, first: string, second: string) returns (events: seq<Event>)
    requires LowerHex64(key) && LowerHex64(first) && LowerHex64(second) && first != second
    ensures Acceptances(events, key) == 2
    ensures |events| == 8 && events[6].Claim? && Run(START, events[..6]).workers == map[]
  {
    events := FirstLost(key, first);
    var idle := events;
    RunAppends(events, Claim(2, 0, second, 20), key);
    events := events + [Claim(2, 0, second, 20)];
    RunAppends(events, Call(2, First), key);
    events := events + [Call(2, First)];
    assert events[..6] == idle;
  }
}
