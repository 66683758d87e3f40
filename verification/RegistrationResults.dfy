/** What the registration transactions guarantee over whole runs. */
module RegistrationResults {
  import opened Common
  import opened Text
  import opened LedgerRows
  import opened Registration
  import Outbox
  import B = BlockingDelivery
  import D = Delivery
  import P = Provider

  /** Every reachable ledger row and outbox row has the exact shape of its state. */
  lemma ReachableShapes(keyHash: string, events: seq<Event>)
    requires LowerHex64(keyHash)
    ensures var s := Run(Start(keyHash), events);
            && (s.ledger.Some? ==> LedgerStateExact(s.ledger, s.ledger.value.state, "v2"))
            && (forall id :: id in s.d.rows ==> Outbox.Exact(s.d.rows[id]))
  {
    StartInv(keyHash);
    RunKeepsInv(Start(keyHash), events);
  }

  predicate Absorbing(s: State) {
    Terminal(s) || InState(s, "failed") || InState(s, "neutralized")
  }

  lemma AbsorbingStep(s: State, e: Event)
    requires Absorbing(s)
    ensures Apply(s, e).ledger == s.ledger
  {
  }

  /** The first terminal cause stays: retired, erased, failed and neutralized rows are never rewritten,
      by later retention or anything else. */
  lemma {:induction false} FirstCauseStays(s: State, events: seq<Event>)
    requires Absorbing(s)
    ensures Run(s, events).ledger == s.ledger
  {
    if events != [] {
      FirstCauseStays(s, events[..|events| - 1]);
      AbsorbingStep(Run(s, events[..|events| - 1]), events[|events| - 1]);
    }
  }

  /** One graph a key, one accepted subject, and every answer is decided by the winner's fingerprint. */
  lemma AnswersAgree(keyHash: string, events: seq<Event>, a: nat, b: nat)
    requires LowerHex64(keyHash)
    requires a in Run(Start(keyHash), events).answers && b in Run(Start(keyHash), events).answers
    ensures var s := Run(Start(keyHash), events);
            var x, y := s.answers[a], s.answers[b];
            && |s.subjects| <= 1
            && (x.reply.Accepted? ==> s.subjects == [x.reply.subject])
            && (x.reply.Accepted? && y.reply.Accepted? ==> x == y)
            && (x.reply.Accepted? && y.reply.Conflict? ==> x.fingerprint != y.fingerprint)
            && !(x.reply.Accepted? && y.reply.AcceptedNeutral?)
  {
    StartInv(keyHash);
    RunKeepsInv(Start(keyHash), events);
  }

  /** A request that finds a row changes nothing but its own answer. */
  lemma ReplayChangesNothing(s: State, e: Event)
    requires IsRequest(e) && s.ledger.Some?
    ensures var t := Apply(s, e);
            && t.ledger == s.ledger && t.d == s.d && t.trace == s.trace && t.subjects == s.subjects
            && t.winner == s.winner && t.linked == s.linked
            && (forall r :: r in s.answers && r != e.request ==> r in t.answers && t.answers[r] == s.answers[r])
  {
  }

  /** After retirement or erasure every payload on the key gets the same reply and leaves the same state. */
  lemma UniformAfterTerminal(s: State, events: seq<Event>, request: nat, one: string, other: string)
    requires Terminal(s) && LowerHex64(one) && LowerHex64(other)
    requires request !in Run(s, events).answers && request !in Run(s, events).inserting
    ensures var t := Run(s, events);
            var x, y := Apply(t, Arrive(request, one)), Apply(t, Arrive(request, other));
            && request in x.answers && x.answers[request].reply == Expired
            && request in y.answers && y.answers[request].reply == Expired
            && x.(answers := map[]) == y.(answers := map[]) == t.(answers := map[])
            && x.ledger == s.ledger
  {
    FirstCauseStays(s, events);
    var t := Run(s, events);
    assert t.inserting - {request} == t.inserting;
  }

  // ----- ordinary runs: requests, deliveries, finalisers and unexpired purges only -----

  predicate Ordinary(e: Event) {
    || e.Arrive? || e.Insert? || e.Finalise?
    || e.Deliver?
    || (e.Purge? && !e.flowExpired)
  }

  /** No row before the ledger row, and only its linked one after. */
  predicate OneRow(s: State) {
    && (s.ledger.None? ==> s.d.rows == map[])
    && (s.ledger.Some? ==> (InState(s, "pending") || InState(s, "succeeded")) && s.d.rows.Keys == {s.linked})
  }

  predicate PlainAnswers(s: State) {
    forall r :: r in s.answers ==> s.answers[r].reply.Accepted? || s.answers[r].reply.Conflict?
  }

  ghost predicate OrdinaryInv(s: State) {
    OneRow(s) && PlainAnswers(s)
  }

  lemma StepKeepsRowIds(d: D.State, step: D.Event)
    ensures step.Stage? || D.Apply(d, step).rows.Keys == d.rows.Keys
  {
  }

  lemma OrdinaryKeepsRow(s: State, e: Event)
    requires RowInv(s) && OneRow(s) && Ordinary(e)
    ensures OneRow(Apply(s, e))
  {
    if DeliveryStep(s, e).Some? { StepKeepsRowIds(s.d, DeliveryStep(s, e).value); }
  }

  lemma OrdinaryKeepsAnswers(s: State, e: Event)
    requires RowInv(s) && OneRow(s) && PlainAnswers(s) && Ordinary(e)
    ensures PlainAnswers(Apply(s, e))
  {
  }

  lemma {:induction false} OrdinaryRun(keyHash: string, events: seq<Event>)
    requires LowerHex64(keyHash) && forall i :: 0 <= i < |events| ==> Ordinary(events[i])
    ensures Inv(Run(Start(keyHash), events)) && OrdinaryInv(Run(Start(keyHash), events))
  {
    StartInv(keyHash);
    if events != [] {
      OrdinaryRun(keyHash, events[..|events| - 1]);
      var s, e := Run(Start(keyHash), events[..|events| - 1]), events[|events| - 1];
      OrdinaryKeepsRow(s, e);
      OrdinaryKeepsAnswers(s, e);
      ApplyKeepsInv(s, e);
    }
  }

  /** Any number of requests in any interleaving, whatever provider double is called: one graph, every
      request with the winner's fingerprint gets its subject, every other one a conflict. The provider
      delivers at least once when the row has succeeded; at most once exactly when no two calls start
      before the first that files, and so with single-section doubles and in calm runs. */
  lemma OneWinner(keyHash: string, events: seq<Event>)
    requires LowerHex64(keyHash) && forall i :: 0 <= i < |events| ==> Ordinary(events[i])
    ensures var s := Run(Start(keyHash), events);
            && (s.answers != map[] ==> s.ledger.Some?)
            && (s.ledger.Some? ==> |s.subjects| == 1 && s.winner.Some?)
            && (forall r :: r in s.answers ==>
                  s.answers[r].reply ==
                  if Some(s.answers[r].fingerprint) == s.winner then Accepted(s.subjects[0]) else Conflict)
            && (s.ledger.None? ==> s.d.provider.sent == [])
            && (s.ledger.Some? ==>
                  && s.linked in s.d.rows
                  && (|s.d.provider.sent| <= 1 <==> B.OneCallBeforeFiling(s.trace, s.d.rows[s.linked].providerKey)))
            && (InState(s, "succeeded") ==> |s.d.provider.sent| >= 1)
            && (D.SingleSection(s.trace) || B.CalmRun(s.trace) ==> |s.d.provider.sent| <= 1)
  {
    OrdinaryRun(keyHash, events);
    var s := Run(Start(keyHash), events);
    B.OneRowDeliveries(s.trace, s.linked);
    if s.ledger.Some? {
      assert s.linked in s.d.rows;
      DeliveriesOf(s, s.linked);
    }
  }

  /** What the schedule says about the deliveries under one row's key. */
  lemma DeliveriesOf(s: State, id: nat)
    requires s.d == D.Run(D.START, s.trace) && id in s.d.rows
    ensures var count := D.Acceptances(s.trace, s.d.rows[id].providerKey);
            && (count <= 1 <==> B.OneCallBeforeFiling(s.trace, s.d.rows[id].providerKey))
            && (s.d.rows[id].status == "sent" ==> count >= 1)
            && (D.SingleSection(s.trace) || B.CalmRun(s.trace) ==> count <= 1)
  {
    B.DeliveredOnceExactly(s.trace, s.d.rows[id].providerKey);
    B.DeliveredAtLeastOnce(s.trace);
    if D.SingleSection(s.trace) { D.AcceptedAtMostOnce(s.trace, id); }
    if B.CalmRun(s.trace) { B.CalmRunsDeliverOnce(s.trace, id); }
  }

  // ----- any run -----

  /** Under activation, compensation, resends, retention and crashes too, a key's provider operation is
      accepted at most once exactly when its calls keep to the schedule condition, as they do with
      single-section doubles and in calm runs; and a succeeded registration's at least once. */
  lemma DeliveredOncePerKey(keyHash: string, events: seq<Event>, id: nat)
    requires LowerHex64(keyHash) && id in Run(Start(keyHash), events).d.rows
    ensures var s := Run(Start(keyHash), events);
            var key := s.d.rows[id].providerKey;
            && (D.Acceptances(s.trace, key) <= 1 <==> B.OneCallBeforeFiling(s.trace, key))
            && (D.SingleSection(s.trace) || B.CalmRun(s.trace) ==> D.Acceptances(s.trace, key) <= 1)
            && (InState(s, "succeeded") ==>
                  s.linked in s.d.rows && D.Acceptances(s.trace, s.d.rows[s.linked].providerKey) >= 1)
  {
    StartInv(keyHash);
    RunKeepsInv(Start(keyHash), events);
    var s := Run(Start(keyHash), events);
    DeliveriesOf(s, id);
    if InState(s, "succeeded") { DeliveriesOf(s, s.linked); }
  }

  // ----- nothing left to relay -----

  predicate Settled(row: Outbox.OutboxRow) { row.status == "sent" || row.status == "void" }

  /** Erased, given up, or never a registration. */
  predicate Closed(s: State) { InState(s, "erased") || InState(s, "failed") || InState(s, "neutralized") }

  ghost predicate RelayInv(s: State) {
    && (s.ledger.None? ==> s.d.rows == map[])
    && (Closed(s) ==> forall id :: id in s.d.rows ==> Settled(s.d.rows[id]))
  }

  /** Only staging makes a row unsettled. */
  lemma SettledRowsStay(d: D.State, step: D.Event)
    requires !step.Stage? && forall id :: id in d.rows ==> Settled(d.rows[id])
    ensures forall id :: id in D.Apply(d, step).rows ==> Settled(D.Apply(d, step).rows[id])
  {
  }

  lemma NoRowsStay(d: D.State, step: D.Event)
    requires !step.Stage? && d.rows == map[]
    ensures D.Apply(d, step).rows == map[]
  {
  }

  lemma ClosingVoids(s: State, e: Event)
    requires s.ledger.Some? && !Closed(s) && Closed(Apply(s, e))
    ensures DeliveryStep(s, e) == Some(D.Void(s.d.rows.Keys))
  {
  }

  lemma ClosedStagesNothing(s: State, e: Event)
    requires Closed(s)
    ensures DeliveryStep(s, e).Some? ==> !DeliveryStep(s, e).value.Stage?
  {
  }

  lemma WithoutRow(s: State, e: Event)
    requires s.ledger.None? && s.d.rows == map[]
    ensures Apply(s, e).ledger.None? || Closed(Apply(s, e)) ==> Apply(s, e).d.rows == map[]
  {
    var step := DeliveryStep(s, e);
    if step.Some? && !step.value.Stage? { NoRowsStay(s.d, step.value); }
  }

  lemma ApplyKeepsRelay(s: State, e: Event)
    requires RelayInv(s)
    ensures RelayInv(Apply(s, e))
  {
    var t := Apply(s, e);
    if s.ledger.None? {
      WithoutRow(s, e);
    } else {
      LedgeredFrame(s, e);
      if Closed(s) {
        ClosedStagesNothing(s, e);
        if DeliveryStep(s, e).Some? { SettledRowsStay(s.d, DeliveryStep(s, e).value); }
      } else if Closed(t) {
        ClosingVoids(s, e);
      }
    }
  }

  lemma {:induction false} RunKeepsRelay(s: State, events: seq<Event>)
    requires RelayInv(s)
    ensures RelayInv(Run(s, events))
  {
    if events != [] {
      RunKeepsRelay(s, events[..|events| - 1]);
      ApplyKeepsRelay(Run(s, events[..|events| - 1]), events[|events| - 1]);
    }
  }

  /** Once a registration is erased or given up, every outbox row of its key is sent or void, those of
      resends too: in every run and its every continuation nothing of it can be claimed again. */
  lemma NothingLeftToRelay(keyHash: string, events: seq<Event>, more: seq<Event>, claim: D.Event)
    requires Closed(Run(Start(keyHash), events))
    ensures var s := Run(Run(Start(keyHash), events), more);
            && (forall id :: id in s.d.rows ==> Settled(s.d.rows[id]))
            && !D.MayClaim(s.d, claim)
  {
    RunKeepsRelay(Start(keyHash), events);
    var s := Run(Start(keyHash), events);
    RunKeepsRelay(s, more);
    FirstCauseStays(s, more);
  }

  // ----- finaliser against retention -----

  /** A finaliser that could claim the linked row now. */
  predicate Ready(s: State, claim: D.Event) {
    && InState(s, "pending") && claim.Claim? && claim.id == s.linked && D.MayClaim(s.d, claim)
    && s.ledger.value.outboxId == Some(s.linked) && s.d.rows[s.linked].providerKey !in s.d.provider.receipts
  }

  /** How a race from s ended in t: the state and row status, and the deliveries made, in full. */
  predicate Ended(s: State, t: State, state: string, status: string, delivered: bool) {
    && s.linked in s.d.rows && s.linked in s.d.intents && s.linked in t.d.rows
    && InState(t, state) && t.subjects == s.subjects && t.d.rows[s.linked].status == status
    && t.d.provider.sent == s.d.provider.sent + (if delivered then [s.d.intents[s.linked]] else [])
    && (s.d.rows[s.linked].providerKey in t.d.provider.receipts <==> delivered)
  }

  /** The claimant is in this phase of a race that began in s; what it has delivered so far. */
  predicate Under(s: State, t: State, claim: D.Event, phase: D.Phase) {
    && s.linked in s.d.rows && s.linked in s.d.intents && s.linked in t.d.rows && claim.Claim?
    && t.linked == s.linked && t.subjects == s.subjects
    && claim.worker in t.d.workers && t.d.workers[claim.worker] == phase
    && phase.job.row == s.linked && phase.job.claim == claim.token
    && phase.job.key == s.d.rows[s.linked].providerKey
    && (phase.job.destination, phase.job.code) == s.d.intents[s.linked]
    && t.d.provider.sent == s.d.provider.sent + (if phase.Claimed? then [] else [s.d.intents[s.linked]])
    && (phase.job.key in t.d.provider.receipts <==> phase.Accepted?)
  }

  /** Before retention: the ledger is as it was and the claim stands. */
  predicate Racing(s: State, t: State, claim: D.Event, phase: D.Phase) {
    && Under(s, t, claim, phase) && t.ledger == s.ledger
    && t.d.rows[s.linked].status == "claimed" && t.d.rows[s.linked].claimToken == Some(claim.token)
  }

  /** After retention: the ledger is erased and the row void. */
  predicate Fenced(s: State, t: State, claim: D.Event, phase: D.Phase) {
    Under(s, t, claim, phase) && InState(t, "erased") && t.d.rows[s.linked].status == "void"
  }

  function NextPhase(phase: D.Phase, section: D.Section): D.Phase {
    if section.First? then D.Entered(phase.job) else D.Accepted(phase.job)
  }

  lemma ClaimStarts(s: State, claim: D.Event) returns (job: D.Job)
    requires Ready(s, claim)
    ensures Racing(s, Apply(s, Deliver(claim)), claim, D.Claimed(job))
  {
    var intent := s.d.intents[s.linked];
    job := D.Job(s.linked, claim.token, intent.0, intent.1, s.d.rows[s.linked].providerKey);
  }

  /** A section of the call moves the claimant on and delivers on the way in. */
  lemma CallMoves(d: D.State, worker: nat, section: D.Section)
    requires D.MayCall(d, worker, section) && !section.WholeThenCrash?
    requires d.workers[worker].job.key !in d.provider.receipts
    ensures var job := d.workers[worker].job;
            var u := D.Apply(d, D.Call(worker, section));
            && u.rows == d.rows
            && worker in u.workers && u.workers[worker] == NextPhase(d.workers[worker], section)
            && u.provider.sent == d.provider.sent + (if section.Second? then [] else [(job.destination, job.code)])
            && (job.key in u.provider.receipts <==> !section.First?)
  {
    D.CallFrame(d, worker, section);
  }

  lemma CallContinues(s: State, t: State, claim: D.Event, phase: D.Phase, section: D.Section)
    requires Under(s, t, claim, phase) && !phase.Accepted? && !phase.Refused? && !section.WholeThenCrash?
    requires phase.Entered? <==> section.Second?
    ensures var u := Apply(t, Deliver(D.Call(claim.worker, section)));
            && Under(s, u, claim, NextPhase(phase, section)) && u.ledger == t.ledger && u.d.rows == t.d.rows
  {
    CallMoves(t.d, claim.worker, section);
  }

  lemma PurgeFences(s: State, t: State, claim: D.Event, phase: D.Phase)
    requires Racing(s, t, claim, phase) && InState(s, "pending")
    ensures Fenced(s, Apply(t, Purge(true)), claim, phase)
  {
  }

  lemma FencedEnds(s: State, t: State, claim: D.Event, phase: D.Phase, receiptHash: string)
    requires Fenced(s, t, claim, phase) && phase.Accepted?
    ensures Ended(s, Apply(t, Finalise(claim.worker, receiptHash)), "erased", "void", true)
  {
  }

  lemma FinaliserAccepted(s: State, t: State, claim: D.Event, phase: D.Phase, receiptHash: string)
    requires Ready(s, claim) && Racing(s, t, claim, phase) && phase.Accepted? && LowerHex64(receiptHash)
    ensures Ended(s, Apply(t, Finalise(claim.worker, receiptHash)), "succeeded", "sent", true)
  {
    assert MayFinalise(t, claim.worker, receiptHash);
  }

  lemma PurgeAfterSuccess(t: State, flowExpired: bool)
    requires InState(t, "succeeded")
    ensures var u := Apply(t, Purge(flowExpired)); u.ledger == t.ledger && u.d == t.d && u.subjects == t.subjects
  {
  }

  /** The finaliser's steps, with the single-section double or held between the sections of the blocking one. */
  function Finaliser(claim: D.Event, receiptHash: string, blocking: bool): (steps: seq<Event>)
    requires claim.Claim?
    ensures |steps| == if blocking then 4 else 3
  {
    var w := claim.worker;
    if blocking then
      [Deliver(claim), Deliver(D.Call(w, D.First)), Deliver(D.Call(w, D.Second)), Finalise(w, receiptHash)]
    else [Deliver(claim), Deliver(D.Call(w, D.Whole)), Finalise(w, receiptHash)]
  }

  /** Retention commits after this many of the finaliser's steps. */
  function Race(claim: D.Event, receiptHash: string, blocking: bool, flowExpired: bool, place: nat): seq<Event>
    requires claim.Claim? && place <= |Finaliser(claim, receiptHash, blocking)|
  {
    var steps := Finaliser(claim, receiptHash, blocking);
    Cut(steps, flowExpired, place, |steps|)
  }

  /** The first k steps with retention after the first `place` of them. */
  function Cut(steps: seq<Event>, flowExpired: bool, place: nat, k: nat): seq<Event>
    requires place <= k <= |steps|
  {
    steps[..place] + [Purge(flowExpired)] + steps[place..k]
  }

  lemma CutGrows(steps: seq<Event>, flowExpired: bool, place: nat, k: nat)
    requires place <= k < |steps|
    ensures Cut(steps, flowExpired, place, k + 1) == Cut(steps, flowExpired, place, k) + [steps[k]]
  {
  }

  lemma CutStarts(steps: seq<Event>, flowExpired: bool, k: nat)
    requires k <= |steps|
    ensures Cut(steps, flowExpired, k, k) == steps[..k] + [Purge(flowExpired)]
  {
  }

  lemma RunAppend(s: State, events: seq<Event>, e: Event)
    ensures Run(s, events + [e]) == Apply(Run(s, events), e)
  {
    assert (events + [e])[..|events|] == events;
  }

  /** The claimant's phase after this many steps. */
  function PhaseAt(job: D.Job, blocking: bool, k: nat): D.Phase {
    if k == 1 then D.Claimed(job) else if blocking && k == 2 then D.Entered(job) else D.Accepted(job)
  }

  lemma {:induction false} RacingAt(s: State, claim: D.Event, receiptHash: string, blocking: bool, k: nat)
    returns (job: D.Job)
    requires Ready(s, claim) && 1 <= k < |Finaliser(claim, receiptHash, blocking)|
    ensures Racing(s, Run(s, Finaliser(claim, receiptHash, blocking)[..k]), claim, PhaseAt(job, blocking, k))
  {
    var steps := Finaliser(claim, receiptHash, blocking);
    RunPrefix(s, steps, k - 1);
    if k == 1 {
      job := ClaimStarts(s, claim);
    } else {
      job := RacingAt(s, claim, receiptHash, blocking, k - 1);
      var t := Run(s, steps[..k - 1]);
      CallContinues(s, t, claim, PhaseAt(job, blocking, k - 1), steps[k - 1].step.section);
    }
  }

  /** Running one step more of a cut schedule. */
  lemma RunCut(s: State, steps: seq<Event>, flowExpired: bool, place: nat, k: nat)
    requires place <= k < |steps|
    ensures Run(s, Cut(steps, flowExpired, place, k + 1)) == Apply(Run(s, Cut(steps, flowExpired, place, k)), steps[k])
  {
    CutGrows(steps, flowExpired, place, k);
    RunAppend(s, Cut(steps, flowExpired, place, k), steps[k]);
  }

  lemma RunPurge(s: State, steps: seq<Event>, flowExpired: bool, k: nat)
    requires k <= |steps|
    ensures Run(s, Cut(steps, flowExpired, k, k)) == Apply(Run(s, steps[..k]), Purge(flowExpired))
  {
    CutStarts(steps, flowExpired, k);
    RunAppend(s, steps[..k], Purge(flowExpired));
  }

  lemma RunPrefix(s: State, steps: seq<Event>, k: nat)
    requires k < |steps|
    ensures Run(s, steps[..k + 1]) == Apply(Run(s, steps[..k]), steps[k])
  {
    assert steps[..k + 1] == steps[..k] + [steps[k]];
    RunAppend(s, steps[..k], steps[k]);
  }

  /** The middle steps are calls, each from the phase it starts in. */
  lemma StepIsCall(claim: D.Event, receiptHash: string, blocking: bool, job: D.Job, k: nat)
    requires claim.Claim? && 1 <= k < |Finaliser(claim, receiptHash, blocking)| - 1
    ensures var e := Finaliser(claim, receiptHash, blocking)[k];
            var phase := PhaseAt(job, blocking, k);
            && e.Deliver? && e.step.Call? && e == Deliver(D.Call(claim.worker, e.step.section))
            && !phase.Accepted? && !phase.Refused? && !e.step.section.WholeThenCrash?
            && (phase.Entered? <==> e.step.section.Second?)
            && NextPhase(phase, e.step.section) == PhaseAt(job, blocking, k + 1)
  {
  }

  lemma FencedMoves(s: State, t: State, claim: D.Event, receiptHash: string, blocking: bool, job: D.Job, k: nat)
    requires claim.Claim? && 1 <= k < |Finaliser(claim, receiptHash, blocking)| - 1
    requires Fenced(s, t, claim, PhaseAt(job, blocking, k))
    ensures var e := Finaliser(claim, receiptHash, blocking)[k];
            Fenced(s, Apply(t, e), claim, PhaseAt(job, blocking, k + 1))
  {
    StepIsCall(claim, receiptHash, blocking, job, k);
    var section := Finaliser(claim, receiptHash, blocking)[k].step.section;
    CallContinues(s, t, claim, PhaseAt(job, blocking, k), section);
  }

  lemma {:induction false} FencedAt(s: State, claim: D.Event, receiptHash: string, blocking: bool, place: nat, k: nat)
    returns (job: D.Job)
    requires Ready(s, claim) && 1 <= place <= k < |Finaliser(claim, receiptHash, blocking)|
    ensures var steps := Finaliser(claim, receiptHash, blocking);
            Fenced(s, Run(s, Cut(steps, true, place, k)), claim, PhaseAt(job, blocking, k))
    decreases k
  {
    var steps := Finaliser(claim, receiptHash, blocking);
    if k == place {
      job := RacingAt(s, claim, receiptHash, blocking, k);
      PurgeFences(s, Run(s, steps[..k]), claim, PhaseAt(job, blocking, k));
      RunPurge(s, steps, true, k);
    } else {
      job := FencedAt(s, claim, receiptHash, blocking, place, k - 1);
      FencedMoves(s, Run(s, Cut(steps, true, place, k - 1)), claim, receiptHash, blocking, job, k - 1);
      RunCut(s, steps, true, place, k - 1);
    }
  }

  predicate IsStep(claim: D.Event, receiptHash: string, e: Event)
    requires claim.Claim?
  {
    || e == Deliver(claim) || e == Finalise(claim.worker, receiptHash)
    || (e.Deliver? && e.step.Call? && e.step.worker == claim.worker)
  }

  /** Erased without a delivery, and the finaliser not at work. */
  predicate Missed(s: State, t: State, claim: D.Event) {
    Ended(s, t, "erased", "void", false) && claim.Claim? && claim.id == s.linked && claim.worker !in t.d.workers
  }

  /** A finaliser that comes after retention finds nothing to claim, and none of its steps does anything. */
  lemma MissedStays(s: State, t: State, claim: D.Event, receiptHash: string, e: Event)
    requires Missed(s, t, claim) && IsStep(claim, receiptHash, e)
    ensures Missed(s, Apply(t, e), claim)
  {
  }

  lemma PurgeMisses(s: State, claim: D.Event)
    requires Ready(s, claim)
    ensures Missed(s, Apply(s, Purge(true)), claim)
  {
  }

  lemma {:induction false} RetentionFirst(s: State, claim: D.Event, receiptHash: string, steps: seq<Event>)
    requires Ready(s, claim) && forall i :: 0 <= i < |steps| ==> IsStep(claim, receiptHash, steps[i])
    ensures Missed(s, Run(s, [Purge(true)] + steps), claim)
  {
    if steps == [] {
      assert [Purge(true)] + steps == [] + [Purge(true)];
      RunAppend(s, [], Purge(true));
      PurgeMisses(s, claim);
    } else {
      var init, last := steps[..|steps| - 1], steps[|steps| - 1];
      RetentionFirst(s, claim, receiptHash, init);
      assert [Purge(true)] + steps == ([Purge(true)] + init) + [last];
      RunAppend(s, [Purge(true)] + init, last);
      MissedStays(s, Run(s, [Purge(true)] + init), claim, receiptHash, last);
    }
  }

  lemma RetentionBetween(s: State, claim: D.Event, receiptHash: string, blocking: bool, place: nat)
    requires Ready(s, claim) && 1 <= place < |Finaliser(claim, receiptHash, blocking)|
    ensures Ended(s, Run(s, Race(claim, receiptHash, blocking, true, place)), "erased", "void", true)
  {
    var steps := Finaliser(claim, receiptHash, blocking);
    var n := |steps| - 1;
    var job := FencedAt(s, claim, receiptHash, blocking, place, n);
    RunCut(s, steps, true, place, n);
    FencedEnds(s, Run(s, Cut(steps, true, place, n)), claim, PhaseAt(job, blocking, n), receiptHash);
  }

  lemma Undisturbed(s: State, claim: D.Event, receiptHash: string, blocking: bool)
    requires Ready(s, claim) && LowerHex64(receiptHash)
    ensures Ended(s, Run(s, Finaliser(claim, receiptHash, blocking)), "succeeded", "sent", true)
  {
    var steps := Finaliser(claim, receiptHash, blocking);
    var n := |steps| - 1;
    var job := RacingAt(s, claim, receiptHash, blocking, n);
    FinaliserAccepted(s, Run(s, steps[..n]), claim, PhaseAt(job, blocking, n), receiptHash);
    RunPrefix(s, steps, n);
    assert steps[..n + 1] == steps;
  }

  lemma RetentionLast(s: State, claim: D.Event, receiptHash: string, blocking: bool, flowExpired: bool)
    requires Ready(s, claim) && LowerHex64(receiptHash)
    ensures var t := Run(s, Finaliser(claim, receiptHash, blocking) + [Purge(flowExpired)]);
            Ended(s, t, "succeeded", "sent", true)
  {
    var steps := Finaliser(claim, receiptHash, blocking);
    Undisturbed(s, claim, receiptHash, blocking);
    RunAppend(s, steps, Purge(flowExpired));
    PurgeAfterSuccess(Run(s, steps), flowExpired);
  }

  /** While the flow lives, retention leaves a pending registration that is not yet sent as it is. */
  lemma LiveFlowStays(t: State)
    requires InState(t, "pending") && !LinkedSent(t)
    ensures Apply(t, Purge(false)) == t
  {
  }

  lemma StillPending(s: State, claim: D.Event, receiptHash: string, blocking: bool, k: nat)
    requires Ready(s, claim) && k < |Finaliser(claim, receiptHash, blocking)|
    ensures var t := Run(s, Finaliser(claim, receiptHash, blocking)[..k]); InState(t, "pending") && !LinkedSent(t)
  {
    if k > 0 { var job := RacingAt(s, claim, receiptHash, blocking, k); }
  }

  lemma {:induction false} LiveFlowAt(s: State, claim: D.Event, receiptHash: string, blocking: bool,
                                      place: nat, k: nat)
    requires Ready(s, claim) && place <= k < |Finaliser(claim, receiptHash, blocking)|
    ensures var steps := Finaliser(claim, receiptHash, blocking);
            Run(s, Cut(steps, false, place, k)) == Run(s, steps[..k])
    decreases k
  {
    var steps := Finaliser(claim, receiptHash, blocking);
    if k == place {
      RunPurge(s, steps, false, k);
      StillPending(s, claim, receiptHash, blocking, k);
      LiveFlowStays(Run(s, steps[..k]));
    } else {
      LiveFlowAt(s, claim, receiptHash, blocking, place, k - 1);
      RunCut(s, steps, false, place, k - 1);
      RunPrefix(s, steps, k - 1);
    }
  }

  lemma RetentionOfLiveFlow(s: State, claim: D.Event, receiptHash: string, blocking: bool, place: nat)
    requires Ready(s, claim) && LowerHex64(receiptHash) && place < |Finaliser(claim, receiptHash, blocking)|
    ensures Ended(s, Run(s, Race(claim, receiptHash, blocking, false, place)), "succeeded", "sent", true)
  {
    var steps := Finaliser(claim, receiptHash, blocking);
    var n := |steps| - 1;
    LiveFlowAt(s, claim, receiptHash, blocking, place, n);
    RunCut(s, steps, false, place, n);
    RunPrefix(s, steps, n);
    assert steps[..n + 1] == steps;
    Undisturbed(s, claim, receiptHash, blocking);
  }

  /** Wherever retention commits among the finaliser's steps, with the single-section double or held
      between the two sections of the blocking one, exactly one side wins. Retention wins exactly when the
      flow has expired and the finaliser has not finished: the registration is erased, with one delivery if
      the claim had already been handed out and none if not. Otherwise it succeeds with one delivery. */
  lemma FinaliserVersusRetention(s: State, claim: D.Event, receiptHash: string, blocking: bool,
                                 flowExpired: bool, place: nat)
    requires Ready(s, claim) && LowerHex64(receiptHash) && place <= |Finaliser(claim, receiptHash, blocking)|
    ensures var t := Run(s, Race(claim, receiptHash, blocking, flowExpired, place));
            var erased := flowExpired && place < |Finaliser(claim, receiptHash, blocking)|;
            Ended(s, t, if erased then "erased" else "succeeded", if erased then "void" else "sent",
                  !erased || place > 0)
  {
    var steps := Finaliser(claim, receiptHash, blocking);
    if place == |steps| {
      RetentionLast(s, claim, receiptHash, blocking, flowExpired);
      CutStarts(steps, flowExpired, place);
      assert steps[..place] == steps;
    } else if !flowExpired {
      RetentionOfLiveFlow(s, claim, receiptHash, blocking, place);
    } else if place == 0 {
      RetentionFirst(s, claim, receiptHash, steps);
      assert Cut(steps, true, 0, |steps|) == [Purge(true)] + steps;
    } else {
      RetentionBetween(s, claim, receiptHash, blocking, place);
    }
  }
}
