/** One idempotency key: any number of registration requests racing for its ledger row, the outbox row it
    owns, and activation, compensation and retention, as runs of atomic transactions. */
module Registration {
  import opened Common
  import opened Text
  import opened LedgerRows
  import opened Outbox
  import D = Delivery

  datatype Reply =
    | Accepted(subject: nat)
    | AcceptedNeutral            // same wire shape, no registration behind it
    | Conflict                   // idempotency_conflict
    | DeliveryFailed             // otp_delivery_failed
    | Expired                    // registration_replay_expired

  datatype Answer = Answer(fingerprint: string, reply: Reply)

  /** `subjects` are the registration graphs ever created, `winner` the fingerprint that took the row,
      `linked` the outbox row last tied to it, `inserting` the requests that saw no row, `trace` the
      delivery events so far. */
  datatype State = State(
    keyHash: string,
    ledger: Option<LedgerRow>,
    winner: Option<string>,
    linked: nat,
    subjects: seq<nat>,
    inserting: map<nat, string>,
    answers: map<nat, Answer>,
    d: D.State,
    trace: seq<D.Event>)

  datatype Event =
    | Arrive(request: nat, fingerprint: string)
    | Insert(request: nat, subject: nat, outbox: nat, key: string, destination: string, code: string)
    | InsertNeutral(request: nat)
    | Deliver(step: D.Event)
    | Finalise(worker: nat, receiptHash: string)
    | Resend(outbox: nat, key: string, destination: string, code: string)
    | Activate
    | Compensate
    | Erase
    | EraseLegacy
    | Purge(flowExpired: bool)

  const MAX_ATTEMPTS := 3

  function Start(keyHash: string): State {
    State(keyHash, None, None, 0, [], map[], map[], D.START, [])
  }

  // ----- ledger rows -----

  function PendingRow(keyHash: string, fingerprint: string, subject: nat, outbox: nat): LedgerRow {
    LedgerRow(keyHash, Some(fingerprint), Some("v2"), "pending", None, Some(subject), Some(outbox))
  }

  function NeutralRow(keyHash: string, fingerprint: string): LedgerRow {
    LedgerRow(keyHash, Some(fingerprint), Some("v2"), "neutralized", Some(NEUTRALIZED), None, None)
  }

  function Succeeded(row: LedgerRow): LedgerRow { row.(state := "succeeded", outboxId := None) }

  function Failed(row: LedgerRow): LedgerRow {
    row.(state := "failed", registrationId := None, outboxId := None, outcome := Some(DELIVERY_FAILED))
  }

  /** The hash-only tombstone of a terminal state. */
  function Tombstone(keyHash: string, state: string): LedgerRow {
    LedgerRow(keyHash, None, None, state, Some(REPLAY_EXPIRED), None, None)
  }

  /** What a request is told when it finds the row. */
  function Respond(row: LedgerRow, fingerprint: string): Reply {
    if row.state in TERMINAL_STATES then Expired
    else if row.fingerprint != Some(fingerprint) then Conflict
    else if row.state == "failed" then DeliveryFailed
    else if row.registrationId.Some? then Accepted(row.registrationId.value)
    else AcceptedNeutral
  }

  // ----- transactions; one whose guard fails changes nothing -----

  predicate InState(s: State, state: string) { s.ledger.Some? && s.ledger.value.state == state }

  predicate LinkedSent(s: State) {
    s.linked in s.d.rows && s.d.rows[s.linked].status == "sent"
  }

  function Record(s: State, request: nat, fingerprint: string, reply: Reply): State {
    s.(answers := s.answers[request := Answer(fingerprint, reply)], inserting := s.inserting - {request})
  }

  function ArriveAt(s: State, request: nat, fingerprint: string): State {
    if request in s.answers || request in s.inserting || !LowerHex64(fingerprint) then s
    else if s.ledger.Some? then Record(s, request, fingerprint, Respond(s.ledger.value, fingerprint))
    else s.(inserting := s.inserting[request := fingerprint])
  }

  /** The unique key hash lets one insert through; every other rereads the winner's row. */
  predicate Wins(s: State, e: Event)
    requires e.Insert?
  {
    e.request in s.inserting && s.ledger.None? && D.MayStage(s.d, e.outbox, e.key, e.destination, e.code, MAX_ATTEMPTS)
  }

  function InsertAt(s: State, e: Event): State
    requires e.Insert?
  {
    if e.request !in s.inserting then s
    else
      var fingerprint := s.inserting[e.request];
      if s.ledger.Some? then Record(s, e.request, fingerprint, Respond(s.ledger.value, fingerprint))
      else if Wins(s, e) then
        Record(s.(ledger := Some(PendingRow(s.keyHash, fingerprint, e.subject, e.outbox)), winner := Some(fingerprint),
                  linked := e.outbox, subjects := s.subjects + [e.subject]),
               e.request, fingerprint, Accepted(e.subject))
      else s
  }

  function InsertNeutralAt(s: State, request: nat): State {
    if request !in s.inserting then s
    else
      var fingerprint := s.inserting[request];
      if s.ledger.Some? then Record(s, request, fingerprint, Respond(s.ledger.value, fingerprint))
      else
        Record(s.(ledger := Some(NeutralRow(s.keyHash, fingerprint)), winner := Some(fingerprint)),
               request, fingerprint, AcceptedNeutral)
  }

  /** The worker's claim still stands on the row the pending ledger is tied to. */
  predicate MayFinalise(s: State, worker: nat, receiptHash: string) {
    && InState(s, "pending") && worker in s.d.workers && s.d.workers[worker].Accepted? && LowerHex64(receiptHash)
    && s.ledger.value.outboxId == Some(s.d.workers[worker].job.row) && D.HoldsClaim(s.d, s.d.workers[worker].job)
  }

  predicate Replaces(s: State, e: Event)
    requires e.Resend?
  {
    InState(s, "pending") && LinkedSent(s) && D.MayStage(s.d, e.outbox, e.key, e.destination, e.code, MAX_ATTEMPTS)
  }

  /** Retention fences the claim before it erases a pending registration whose flow has expired. */
  predicate Expires(s: State, flowExpired: bool) {
    InState(s, "pending") && !LinkedSent(s) && flowExpired
  }

  /** The transaction's effect on everything but the delivery state. */
  function Ledgered(s: State, e: Event): State {
    match e
    case Arrive(request, fingerprint) => ArriveAt(s, request, fingerprint)
    case Insert(_, _, _, _, _, _) => InsertAt(s, e)
    case InsertNeutral(request) => InsertNeutralAt(s, request)
    case Deliver(_) => s
    case Finalise(worker, receiptHash) =>
      if MayFinalise(s, worker, receiptHash) then s.(ledger := Some(Succeeded(s.ledger.value))) else s
    case Resend(outbox, _, _, _) =>
      if Replaces(s, e) then s.(ledger := Some(s.ledger.value.(outboxId := Some(outbox))), linked := outbox) else s
    case Activate =>
      if InState(s, "succeeded") || (InState(s, "pending") && LinkedSent(s)) then
        s.(ledger := Some(Tombstone(s.keyHash, "retired")))
      else s
    case Compensate => if InState(s, "pending") then s.(ledger := Some(Failed(s.ledger.value))) else s
    case Erase =>
      if InState(s, "pending") || InState(s, "succeeded") then s.(ledger := Some(Tombstone(s.keyHash, "erased"))) else s
    case EraseLegacy => if s.ledger.None? then s.(ledger := Some(Tombstone(s.keyHash, "erased"))) else s
    case Purge(flowExpired) =>
      if InState(s, "pending") && LinkedSent(s) then s.(ledger := Some(Succeeded(s.ledger.value)))
      else if Expires(s, flowExpired) then s.(ledger := Some(Tombstone(s.keyHash, "erased")))
      else s
  }

  /** Its effect on the delivery state: at most one delivery event. */
  function DeliveryStep(s: State, e: Event): Option<D.Event> {
    match e
    case Insert(_, _, outbox, key, destination, code) =>
      if Wins(s, e) then Some(D.Stage(outbox, key, destination, code, MAX_ATTEMPTS)) else None
    case Deliver(step) => if step.Stage? || step.Void? then None else Some(step)
    case Finalise(worker, receiptHash) =>
      Some(if MayFinalise(s, worker, receiptHash) then D.FinaliseSent(worker, receiptHash) else D.Crash(worker))
    case Resend(outbox, key, destination, code) =>
      if Replaces(s, e) || InState(s, "succeeded") then Some(D.Stage(outbox, key, destination, code, MAX_ATTEMPTS))
      else None
    case Compensate => if InState(s, "pending") then Some(D.Void(s.d.rows.Keys)) else None
    case Erase => if InState(s, "pending") || InState(s, "succeeded") then Some(D.Void(s.d.rows.Keys)) else None
    case Purge(flowExpired) => if Expires(s, flowExpired) then Some(D.Void(s.d.rows.Keys)) else None
    case _ => None
  }

  function Apply(s: State, e: Event): State {
    var next := Ledgered(s, e);
    match DeliveryStep(s, e)
    case None => next.(d := s.d, trace := s.trace)
    case Some(step) => next.(d := D.Apply(s.d, step), trace := s.trace + [step])
  }

  function Run(s: State, events: seq<Event>): State {
    if events == [] then s else Apply(Run(s, events[..|events| - 1]), events[|events| - 1])
  }

  // ----- invariant -----

  /** The answer is the one the row's history justifies. */
  predicate Justified(s: State, answer: Answer) {
    match answer.reply
    case Accepted(subject) => s.subjects == [subject] && s.winner == Some(answer.fingerprint)
    case AcceptedNeutral => s.subjects == [] && s.winner == Some(answer.fingerprint)
    case Conflict => s.winner.Some? && s.winner != Some(answer.fingerprint)
    case DeliveryFailed => s.winner == Some(answer.fingerprint)
    case Expired => Terminal(s)
  }

  /** How the ledger row sits with the graphs created and the fingerprint that won. */
  predicate RowInv(s: State) {
    && LowerHex64(s.keyHash) && |s.subjects| <= 1
    && (s.ledger.None? ==> s.subjects == [] && s.winner.None? && s.answers == map[])
    && (s.ledger.Some? ==>
          var row := s.ledger.value;
          && LedgerStateExact(s.ledger, row.state, "v2") && row.keyHash == s.keyHash
          && (row.fingerprint.Some? ==> s.winner == row.fingerprint)
          && (row.registrationId.Some? ==> s.subjects == [row.registrationId.value])
          && (row.state == "neutralized" ==> s.subjects == []))
  }

  predicate LinkInv(s: State) {
    && (InState(s, "pending") ==> s.ledger.value.outboxId == Some(s.linked) && s.linked in s.d.rows)
    && (InState(s, "succeeded") ==> LinkedSent(s))
  }

  ghost predicate AnswersInv(s: State) {
    && (forall r :: r in s.answers ==> Justified(s, s.answers[r]))
    && (forall r :: r in s.inserting ==> LowerHex64(s.inserting[r]))
  }

  ghost predicate Inv(s: State) {
    RowInv(s) && LinkInv(s) && AnswersInv(s) && D.Inv(s.d) && s.d == D.Run(D.START, s.trace)
  }

  lemma RespondIsJustified(s: State, fingerprint: string)
    requires RowInv(s) && s.ledger.Some?
    ensures Justified(s, Answer(fingerprint, Respond(s.ledger.value, fingerprint)))
  {
  }

  predicate IsRequest(e: Event) { e.Arrive? || e.Insert? || e.InsertNeutral? }

  predicate Terminal(s: State) { InState(s, "retired") || InState(s, "erased") }

  lemma RequestKeepsRow(s: State, e: Event)
    requires RowInv(s) && AnswersInv(s) && IsRequest(e)
    ensures RowInv(Ledgered(s, e))
  {
  }

  lemma OtherKeepsRow(s: State, e: Event)
    requires RowInv(s) && !IsRequest(e)
    ensures RowInv(Ledgered(s, e))
  {
    TombstoneKeepsRow(s, if e.Activate? then "retired" else "erased");
    if s.ledger.Some? && s.ledger.value.state == "pending" { PendingMoves(s); }
  }

  lemma TombstoneKeepsRow(s: State, state: string)
    requires RowInv(s) && (state == "retired" || state == "erased")
    ensures RowInv(s.(ledger := Some(Tombstone(s.keyHash, state))))
  {
  }

  /** A pending row may be finished, given up or tied to another outbox row. */
  lemma PendingMoves(s: State)
    requires RowInv(s) && InState(s, "pending")
    ensures RowInv(s.(ledger := Some(Succeeded(s.ledger.value))))
    ensures RowInv(s.(ledger := Some(Failed(s.ledger.value))))
    ensures forall outbox, linked ::
              RowInv(s.(ledger := Some(s.ledger.value.(outboxId := Some(outbox))), linked := linked))
  {
  }

  /** Nothing but a request adds an answer, and nothing ever unmakes a winner or a terminal state. */
  lemma LedgeredFrame(s: State, e: Event)
    ensures var t := Ledgered(s, e);
            && (!IsRequest(e) ==> t.answers == s.answers && t.inserting == s.inserting
                                  && t.winner == s.winner && t.subjects == s.subjects)
            && (s.ledger.Some? ==> t.ledger.Some? && t.winner == s.winner && t.subjects == s.subjects)
            && (Terminal(s) ==> Terminal(t))
  {
  }

  lemma JustifiedOn(s: State, t: State, answer: Answer)
    requires Justified(s, answer) && t.winner == s.winner && t.subjects == s.subjects
    requires Terminal(s) ==> Terminal(t)
    ensures Justified(t, answer)
  {
  }

  lemma RequestKeepsAnswers(s: State, e: Event)
    requires RowInv(s) && AnswersInv(s) && IsRequest(e)
    ensures AnswersInv(Ledgered(s, e))
  {
    var t := Ledgered(s, e);
    LedgeredFrame(s, e);
    if s.ledger.Some? {
      if e.request in s.inserting { RespondIsJustified(s, s.inserting[e.request]); }
      if e.Arrive? { RespondIsJustified(s, e.fingerprint); }
      forall r | r in t.answers ensures Justified(t, t.answers[r]) {
        JustifiedOn(s, t, t.answers[r]);
      }
    }
  }

  lemma OtherKeepsAnswers(s: State, e: Event)
    requires RowInv(s) && AnswersInv(s) && !IsRequest(e)
    ensures AnswersInv(Ledgered(s, e))
  {
  }

  lemma ApplyKeepsRow(s: State, e: Event)
    requires RowInv(s) && AnswersInv(s)
    ensures RowInv(Apply(s, e)) && AnswersInv(Apply(s, e))
  {
    var next, t := Ledgered(s, e), Apply(s, e);
    if IsRequest(e) {
      RequestKeepsRow(s, e);
      RequestKeepsAnswers(s, e);
    } else {
      OtherKeepsRow(s, e);
      OtherKeepsAnswers(s, e);
    }
    SameLedgerSide(next, t);
  }

  /** The row and answer invariants do not look at the delivery state. */
  lemma SameLedgerSide(s: State, t: State)
    requires RowInv(s) && AnswersInv(s) && t == s.(d := t.d, trace := t.trace)
    ensures RowInv(t) && AnswersInv(t)
  {
    forall r | r in t.answers ensures Justified(t, t.answers[r]) { assert Justified(s, s.answers[r]); }
  }

  lemma ApplyTraces(s: State, e: Event)
    requires D.Inv(s.d) && s.d == D.Run(D.START, s.trace)
    ensures D.Inv(Apply(s, e).d) && Apply(s, e).d == D.Run(D.START, Apply(s, e).trace)
  {
    match DeliveryStep(s, e)
    case None =>
    case Some(step) =>
      D.ApplyKeepsInv(s.d, step);
      assert (s.trace + [step])[..|s.trace|] == s.trace;
  }

  /** Delivery events keep a staged row, and a sent row stays sent. */
  lemma RowsStay(d: D.State, step: D.Event, id: nat)
    requires id in d.rows
    ensures id in D.Apply(d, step).rows
    ensures d.rows[id].status == "sent" ==> D.Apply(d, step).rows[id].status == "sent"
  {
  }

  lemma RequestKeepsLink(s: State, e: Event)
    requires RowInv(s) && LinkInv(s) && IsRequest(e)
    ensures LinkInv(Apply(s, e))
  {
    if s.linked in s.d.rows && DeliveryStep(s, e).Some? { RowsStay(s.d, DeliveryStep(s, e).value, s.linked); }
  }

  lemma OtherKeepsLink(s: State, e: Event)
    requires RowInv(s) && LinkInv(s) && !IsRequest(e)
    ensures LinkInv(Apply(s, e))
  {
    if s.linked in s.d.rows && DeliveryStep(s, e).Some? { RowsStay(s.d, DeliveryStep(s, e).value, s.linked); }
  }

  lemma ApplyKeepsLink(s: State, e: Event)
    requires RowInv(s) && LinkInv(s)
    ensures LinkInv(Apply(s, e))
  {
    if IsRequest(e) { RequestKeepsLink(s, e); } else { OtherKeepsLink(s, e); }
  }

  /** Each transaction keeps the invariant. */
  lemma ApplyKeepsInv(s: State, e: Event)
    requires Inv(s)
    ensures Inv(Apply(s, e))
  {
    ApplyKeepsRow(s, e);
    ApplyTraces(s, e);
    ApplyKeepsLink(s, e);
  }

  lemma {:induction false} RunKeepsInv(s: State, events: seq<Event>)
    requires Inv(s)
    ensures Inv(Run(s, events))
  {
    if events != [] {
      RunKeepsInv(s, events[..|events| - 1]);
      ApplyKeepsInv(Run(s, events[..|events| - 1]), events[|events| - 1]);
    }
  }

  lemma StartInv(keyHash: string)
    requires LowerHex64(keyHash)
    ensures Inv(Start(keyHash))
  {
    D.StartInv();
  }
}
