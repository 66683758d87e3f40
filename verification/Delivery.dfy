/** The outbox delivery protocol: claimants with leases, provider calls outside any lock, crashes,
    backoff and fenced finalisation, as runs of atomic events over any number of rows and workers. */
module Delivery {
  import opened Common
  import opened Text
  import opened Outbox
  import P = Provider

  /** What a claimant carries away from its claim. */
  datatype Job = Job(row: nat, claim: string, destination: string, code: string, key: string)

  /** A live claimant. Entered is held between the two sections of the blocking double. */
  datatype Phase =
    | Claimed(job: Job)
    | Entered(job: Job)
    | Accepted(job: Job)
    | Refused(job: Job)

  /** `intents` remembers what each row was staged to deliver; `issued` every claim token ever drawn. */
  datatype State = State(
    clock: int,
    rows: map<nat, OutboxRow>,
    intents: map<nat, (string, string)>,
    provider: P.Ledger,
    workers: map<nat, Phase>,
    issued: set<string>)

  /** Which critical section of which double a provider call runs. */
  datatype Section =
    | Whole             // the single section of the capturing double
    | WholeThenCrash    // the same section, after which the claimant dies
    | First             // blocking double, up to the wait
    | Second            // blocking double, after the wait

  datatype Event =
    | Tick(elapsed: nat)
    | Stage(id: nat, key: string, destination: string, code: string, maxAttempts: nat)
    | Claim(worker: nat, id: nat, token: string, lease: int)
    | Call(worker: nat, section: Section)
    | ProviderFails(worker: nat)                          // refused before calling, or while held
    | Crash(worker: nat)
    | FinaliseSent(worker: nat, receiptHash: string)
    | FinaliseFailed(worker: nat, retryAt: int)
    | Void(ids: set<nat>)

  const START := State(0, map[], map[], P.EMPTY, map[], {})

  // ----- claims -----

  /** No claim before the lease or the backoff has run out. */
  predicate Claimable(row: OutboxRow, now: int) {
    || row.status == "pending"
    || (row.status == "failed" && row.nextAttemptAt.Some? && row.nextAttemptAt.value <= now)
    || (row.status == "claimed" && row.leaseExpiresAt.Some? && row.leaseExpiresAt.value <= now)
  }

  function ClaimRow(row: OutboxRow, token: string, now: int, lease: int): OutboxRow {
    row.(status := "claimed", attempts := row.attempts + 1, claimToken := Some(token), claimedAt := Some(now),
         leaseExpiresAt := Some(lease), nextAttemptAt := None)
  }

  predicate MayClaim(s: State, e: Event) {
    e.Claim? && e.worker !in s.workers && e.id in s.rows && e.id in s.intents
    && Claimable(s.rows[e.id], s.clock) && LowerHex64(e.token) && e.token !in s.issued && s.clock < e.lease
  }

  /** The row still carries the claim the job was given. */
  predicate HoldsClaim(s: State, job: Job) {
    job.row in s.rows && s.rows[job.row].status == "claimed" && s.rows[job.row].claimToken == Some(job.claim)
  }

  function SentRow(row: OutboxRow, now: int, receiptHash: string): OutboxRow {
    row.(status := "sent", claimToken := None, claimedAt := None, leaseExpiresAt := None, nextAttemptAt := None,
         code := None, destination := None, lastError := None,
         deliveredAt := Some(now), receiptHash := Some(receiptHash), receiptKeyVersion := Some("v1"))
  }

  function FailedRow(row: OutboxRow, retryAt: int): OutboxRow {
    row.(status := "failed", claimToken := None, claimedAt := None, leaseExpiresAt := None,
         nextAttemptAt := Some(retryAt), lastError := Some(SEND_FAILED))
  }

  function VoidRow(row: OutboxRow): OutboxRow {
    row.(status := "void", claimToken := None, claimedAt := None, leaseExpiresAt := None, nextAttemptAt := None,
         code := None, destination := None)
  }

  /** Retention voids rows together; a sent row stays as it is. */
  function Voided(rows: map<nat, OutboxRow>, ids: set<nat>): map<nat, OutboxRow> {
    map id | id in rows :: if id in ids && rows[id].status != "sent" then VoidRow(rows[id]) else rows[id]
  }

  // ----- events; one whose guard fails changes nothing -----

  /** The call itself, outside every row lock. No outcome yet means the claimant is held inside. */
  function CallProvider(section: Section, p: P.Ledger, job: Job): (r: (P.Ledger, Option<P.Outcome>))
    ensures p.receipts.Keys <= r.0.receipts.Keys <= p.receipts.Keys + {job.key}
    ensures forall key :: key in p.receipts && key != job.key ==> r.0.receipts[key] == p.receipts[key]
    ensures job.key in r.0.receipts ==>
              || (job.key in p.receipts && r.0.receipts[job.key] == p.receipts[job.key])
              || (r.0.receipts[job.key].destination, r.0.receipts[job.key].code) == (job.destination, job.code)
    ensures r.1.Some? && r.1.value.Returned? ==> job.key in r.0.receipts
    ensures p.sent <= r.0.sent && |r.0.sent| <= |p.sent| + 1
    ensures |r.0.sent| > |p.sent| <==> !section.Second? && job.key !in p.receipts
  {
    match section
    case Whole => var (after, outcome) := P.Capture(p, job.destination, job.code, job.key); (after, Some(outcome))
    case WholeThenCrash =>
      var (after, outcome) := P.AcceptThenCrash(p, job.destination, job.code, job.key); (after, Some(outcome))
    case First => P.Enter(p, job.destination, job.code, job.key)
    case Second => var (after, outcome) := P.Leave(p, job.destination, job.code, job.key); (after, Some(outcome))
  }

  /** The claimant is where this section starts. */
  predicate MayCall(s: State, worker: nat, section: Section) {
    worker in s.workers && (if section.Second? then s.workers[worker].Entered? else s.workers[worker].Claimed?)
  }

  /** Where the answer leaves the claimant; a crash removes it. */
  function Answered(workers: map<nat, Phase>, worker: nat, job: Job, outcome: Option<P.Outcome>): map<nat, Phase> {
    match outcome
    case None => workers[worker := Entered(job)]
    case Some(Returned(_)) => workers[worker := Accepted(job)]
    case Some(SendError) => workers[worker := Refused(job)]
    case Some(Crashed) => workers - {worker}
  }

  function ApplyCall(s: State, worker: nat, section: Section): State
    requires MayCall(s, worker, section)
  {
    var job := s.workers[worker].job;
    var (provider, outcome) := CallProvider(section, s.provider, job);
    s.(provider := provider, workers := Answered(s.workers, worker, job, outcome))
  }

  function Apply(s: State, e: Event): State {
    match e
    case Tick(elapsed) => s.(clock := s.clock + elapsed)
    case Stage(id, key, destination, code, maxAttempts) => ApplyStage(s, id, key, destination, code, maxAttempts)
    case Claim(worker, id, token, lease) =>
      if MayClaim(s, e) then
        var job := Job(id, token, s.intents[id].0, s.intents[id].1, s.rows[id].providerKey);
        s.(rows := s.rows[id := ClaimRow(s.rows[id], token, s.clock, lease)],
           workers := s.workers[worker := Claimed(job)], issued := s.issued + {token})
      else s
    case Call(worker, section) => if MayCall(s, worker, section) then ApplyCall(s, worker, section) else s
    case ProviderFails(worker) =>
      if worker in s.workers && (s.workers[worker].Claimed? || s.workers[worker].Entered?) then
        s.(workers := s.workers[worker := Refused(s.workers[worker].job)])
      else s
    case Crash(worker) => s.(workers := s.workers - {worker})
    case FinaliseSent(worker, receiptHash) =>
      if worker in s.workers && s.workers[worker].Accepted? && LowerHex64(receiptHash) then
        var job := s.workers[worker].job;
        var rest := s.(workers := s.workers - {worker});
        if HoldsClaim(s, job) then rest.(rows := s.rows[job.row := SentRow(s.rows[job.row], s.clock, receiptHash)])
        else rest
      else s
    case FinaliseFailed(worker, retryAt) =>
      if worker in s.workers && s.workers[worker].Refused? && s.clock < retryAt then
        var job := s.workers[worker].job;
        var rest := s.(workers := s.workers - {worker});
        if HoldsClaim(s, job) then rest.(rows := s.rows[job.row := FailedRow(s.rows[job.row], retryAt)])
        else rest
      else s
    case Void(ids) => s.(rows := Voided(s.rows, ids))
  }

  function StagedRow(key: string, destination: string, code: string, maxAttempts: nat): OutboxRow {
    OutboxRow("pending", 0, maxAttempts, key, None, None, None, None, Some(code), Some(destination), "v1",
              None, None, None, None, false)
  }

  /** A new row gets a provider key of its own. */
  predicate MayStage(s: State, id: nat, key: string, destination: string, code: string, maxAttempts: nat) {
    && id !in s.rows && LowerHex64(key) && (forall i :: i in s.rows ==> s.rows[i].providerKey != key)
    && destination != "" && code != "" && 0 < maxAttempts <= 10
  }

  function ApplyStage(s: State, id: nat, key: string, destination: string, code: string, maxAttempts: nat): State {
    if MayStage(s, id, key, destination, code, maxAttempts) then
      s.(rows := s.rows[id := StagedRow(key, destination, code, maxAttempts)],
         intents := s.intents[id := (destination, code)])
    else s
  }

  function Run(s: State, events: seq<Event>): State {
    if events == [] then s else Apply(Run(s, events[..|events| - 1]), events[|events| - 1])
  }

  lemma {:induction false} RunSplits(s: State, first: seq<Event>, second: seq<Event>)
    ensures Run(s, first + second) == Run(Run(s, first), second)
  {
    var all := first + second;
    if second == [] {
      assert all == first;
    } else {
      assert all[..|all| - 1] == first + second[..|second| - 1];
      RunSplits(s, first, second[..|second| - 1]);
    }
  }

  // ----- invariant: rows in shape, claimants carry their row's payload and key -----

  predicate Carries(s: State, job: Job) {
    && job.row in s.rows && job.row in s.intents
    && job.key == s.rows[job.row].providerKey
    && (job.destination, job.code) == s.intents[job.row]
    && job.claim in s.issued
  }

  /** A filed receipt belongs to the row of that key and its staged payload. */
  predicate Filed(s: State, key: string, receipt: P.Receipt) {
    exists id :: id in s.rows && id in s.intents && s.rows[id].providerKey == key
                 && s.intents[id] == (receipt.destination, receipt.code)
  }

  ghost predicate ShapeInv(s: State) {
    forall id :: id in s.rows ==> Exact(s.rows[id])
  }

  ghost predicate KeysDistinct(s: State) {
    forall i, j :: i in s.rows && j in s.rows && s.rows[i].providerKey == s.rows[j].providerKey ==> i == j
  }

  ghost predicate TokensIssued(s: State) {
    forall id :: id in s.rows && s.rows[id].claimToken.Some? ==> s.rows[id].claimToken.value in s.issued
  }

  ghost predicate JobsCarried(s: State) {
    forall w :: w in s.workers ==> Carries(s, s.workers[w].job)
  }

  ghost predicate AcceptedFiled(s: State) {
    forall w :: w in s.workers && s.workers[w].Accepted? ==> s.workers[w].job.key in s.provider.receipts
  }

  ghost predicate ReceiptsFiled(s: State) {
    forall key :: key in s.provider.receipts ==> Filed(s, key, s.provider.receipts[key])
  }

  ghost predicate SentFiled(s: State) {
    forall id :: id in s.rows && s.rows[id].status == "sent" ==> s.rows[id].providerKey in s.provider.receipts
  }

  ghost predicate LinkInv(s: State) {
    && s.rows.Keys == s.intents.Keys && KeysDistinct(s) && TokensIssued(s)
    && JobsCarried(s) && AcceptedFiled(s) && ReceiptsFiled(s) && SentFiled(s)
  }

  ghost predicate Inv(s: State) {
    ShapeInv(s) && LinkInv(s)
  }

  lemma RowStepsKeepShape(row: OutboxRow, token: string, now: int, lease: int, retryAt: int, receiptHash: string)
    requires Exact(row)
    ensures Claimable(row, now) && LowerHex64(token) && now < lease ==> Exact(ClaimRow(row, token, now, lease))
    ensures row.status == "claimed" ==> Exact(FailedRow(row, retryAt))
    ensures row.status == "claimed" && LowerHex64(receiptHash) ==> Exact(SentRow(row, now, receiptHash))
    ensures row.status != "sent" ==> Exact(VoidRow(row))
  {
  }

  lemma ApplyKeepsShape(s: State, e: Event)
    requires ShapeInv(s)
    ensures ShapeInv(Apply(s, e))
  {
    match e
    case Claim(worker, id, token, lease) =>
      if id in s.rows { RowStepsKeepShape(s.rows[id], token, s.clock, lease, 0, ""); }
    case FinaliseSent(worker, receiptHash) =>
      if worker in s.workers && HoldsClaim(s, s.workers[worker].job) {
        RowStepsKeepShape(s.rows[s.workers[worker].job.row], "", s.clock, 0, 0, receiptHash);
      }
    case FinaliseFailed(worker, retryAt) =>
      if worker in s.workers && HoldsClaim(s, s.workers[worker].job) {
        RowStepsKeepShape(s.rows[s.workers[worker].job.row], "", s.clock, 0, retryAt, "");
      }
    case Void(ids) =>
      forall id | id in s.rows ensures Exact(Apply(s, e).rows[id]) {
        RowStepsKeepShape(s.rows[id], "", s.clock, 0, 0, "");
      }
    case _ =>
  }

  /** What every event but staging does to the rows: none comes or goes, and no provider key changes. */
  predicate RowsEvolve(s: State, t: State) {
    && t.rows.Keys == s.rows.Keys && t.intents == s.intents && s.issued <= t.issued && s.clock <= t.clock
    && forall id :: id in s.rows ==> t.rows[id].providerKey == s.rows[id].providerKey
  }

  lemma ApplyEvolves(s: State, e: Event)
    requires !e.Stage?
    ensures RowsEvolve(s, Apply(s, e))
  {
  }

  lemma JobsOn(s: State, t: State)
    requires RowsEvolve(s, t) && JobsCarried(s)
    requires forall w :: w in t.workers ==>
               (w in s.workers && t.workers[w].job == s.workers[w].job) || Carries(t, t.workers[w].job)
    ensures JobsCarried(t)
  {
  }

  lemma ReceiptsOn(s: State, t: State)
    requires RowsEvolve(s, t)
    requires forall key :: key in t.provider.receipts ==> Filed(s, key, t.provider.receipts[key])
    ensures ReceiptsFiled(t)
  {
  }

  lemma CallFiles(s: State, worker: nat, section: Section)
    requires ReceiptsFiled(s) && JobsCarried(s) && MayCall(s, worker, section)
    ensures var receipts := ApplyCall(s, worker, section).provider.receipts;
            forall key :: key in receipts ==> Filed(s, key, receipts[key])
  {
  }

  lemma KeysOn(s: State, t: State)
    requires RowsEvolve(s, t) && KeysDistinct(s)
    ensures KeysDistinct(t)
  {
  }

  /** A call touches the provider and its own claimant, nothing else. */
  lemma CallFrame(s: State, worker: nat, section: Section)
    requires MayCall(s, worker, section)
    ensures var t := ApplyCall(s, worker, section);
            && t.rows == s.rows && t.intents == s.intents && t.issued == s.issued && t.clock == s.clock
            && s.provider.receipts.Keys <= t.provider.receipts.Keys
            && (forall w :: w in t.workers ==> w in s.workers && t.workers[w].job == s.workers[w].job)
            && (forall w :: w in t.workers && w != worker ==> t.workers[w] == s.workers[w])
            && (worker in t.workers && t.workers[worker].Accepted? ==> s.workers[worker].job.key in t.provider.receipts)
  {
  }

  lemma CallKeepsClaimants(s: State, worker: nat, section: Section)
    requires JobsCarried(s) && AcceptedFiled(s) && SentFiled(s) && TokensIssued(s) && MayCall(s, worker, section)
    ensures var t := ApplyCall(s, worker, section);
            RowsEvolve(s, t) && JobsCarried(t) && AcceptedFiled(t) && SentFiled(t) && TokensIssued(t)
  {
    var t := ApplyCall(s, worker, section);
    CallFrame(s, worker, section);
    assert RowsEvolve(s, t);
    JobsOn(s, t);
  }

  lemma StageKeepsRows(s: State, e: Event)
    requires e.Stage? && s.rows.Keys == s.intents.Keys && KeysDistinct(s)
    ensures var t := Apply(s, e);
            && t.rows.Keys == t.intents.Keys && KeysDistinct(t)
            && (forall id :: id in s.rows ==>
                  id in t.rows && t.rows[id] == s.rows[id] && t.intents[id] == s.intents[id])
  {
  }

  lemma StageKeepsJobs(s: State, e: Event)
    requires e.Stage? && JobsCarried(s) && AcceptedFiled(s) && SentFiled(s) && TokensIssued(s)
    ensures var t := Apply(s, e);
            JobsCarried(t) && AcceptedFiled(t) && SentFiled(t) && TokensIssued(t)
  {
  }

  lemma StageKeepsReceipts(s: State, e: Event)
    requires e.Stage? && ReceiptsFiled(s)
    ensures ReceiptsFiled(Apply(s, e))
  {
    var t := Apply(s, e);
    forall key | key in t.provider.receipts ensures Filed(t, key, t.provider.receipts[key]) {
      var receipt := s.provider.receipts[key];
      assert Filed(s, key, receipt);
      var id :| id in s.rows && id in s.intents && s.rows[id].providerKey == key
                && s.intents[id] == (receipt.destination, receipt.code);
      assert id in t.rows && t.rows[id].providerKey == key;
    }
  }

  lemma OtherKeepsJobs(s: State, e: Event)
    requires JobsCarried(s) && AcceptedFiled(s) && !e.Stage? && !e.Call?
    ensures RowsEvolve(s, Apply(s, e)) && JobsCarried(Apply(s, e)) && AcceptedFiled(Apply(s, e))
  {
    ApplyEvolves(s, e);
    OtherKeepsAccepted(s, e);
    JobsOn(s, Apply(s, e));
  }

  lemma OtherKeepsAccepted(s: State, e: Event)
    requires AcceptedFiled(s) && !e.Stage? && !e.Call?
    ensures AcceptedFiled(Apply(s, e))
  {
  }

  lemma OtherKeepsRows(s: State, e: Event)
    requires JobsCarried(s) && AcceptedFiled(s) && TokensIssued(s) && SentFiled(s) && !e.Stage? && !e.Call?
    ensures TokensIssued(Apply(s, e)) && SentFiled(Apply(s, e)) && Apply(s, e).provider == s.provider
  {
    if e.FinaliseSent? && e.worker in s.workers { assert Carries(s, s.workers[e.worker].job); }
  }

  lemma ApplyKeepsInv(s: State, e: Event)
    requires Inv(s)
    ensures Inv(Apply(s, e))
  {
    ApplyKeepsShape(s, e);
    var t := Apply(s, e);
    match e
    case Stage(_, _, _, _, _) =>
      StageKeepsRows(s, e);
      StageKeepsJobs(s, e);
      StageKeepsReceipts(s, e);
    case Call(worker, section) =>
      if MayCall(s, worker, section) {
        CallKeepsClaimants(s, worker, section);
        KeysOn(s, t);
        CallFiles(s, worker, section);
        ReceiptsOn(s, t);
      }
    case _ =>
      OtherKeepsJobs(s, e);
      OtherKeepsRows(s, e);
      KeysOn(s, t);
      ReceiptsOn(s, t);
  }

  /** Every reachable row has the exact shape of its status, and everything a claimant or a receipt
      carries agrees with its row. */
  lemma {:induction false} RunKeepsInv(s: State, events: seq<Event>)
    requires Inv(s)
    ensures Inv(Run(s, events))
  {
    if events != [] {
      RunKeepsInv(s, events[..|events| - 1]);
      ApplyKeepsInv(Run(s, events[..|events| - 1]), events[|events| - 1]);
    }
  }

  /** In every reachable state each outbox row has the exact shape of its status, and no two rows share a
      provider key. */
  lemma ReachableShapes(events: seq<Event>)
    ensures var s := Run(START, events);
            && (forall id :: id in s.rows ==> Exact(s.rows[id]))
            && (forall i, j :: i in s.rows && j in s.rows && s.rows[i].providerKey == s.rows[j].providerKey ==> i == j)
  {
    StartInv();
    RunKeepsInv(START, events);
  }

  // ----- at most one acceptance -----

  /** This event makes the provider deliver under this key. */
  predicate Accepts(s: State, e: Event, key: string) {
    && e.Call? && MayCall(s, e.worker, e.section) && s.workers[e.worker].job.key == key
    && |Apply(s, e).provider.sent| > |s.provider.sent|
  }

  /** How often the run made the provider deliver under this key. */
  function Acceptances(events: seq<Event>, key: string): nat {
    if events == [] then 0
    else
      var before := events[..|events| - 1];
      Acceptances(before, key) + if Accepts(Run(START, before), events[|events| - 1], key) then 1 else 0
  }

  /** Only doubles that check and record in one critical section are called. */
  predicate SingleSection(events: seq<Event>) {
    forall i :: 0 <= i < |events| && events[i].Call? ==> events[i].section.Whole? || events[i].section.WholeThenCrash?
  }

  lemma StartInv()
    ensures Inv(START)
  {
  }

  lemma AcceptanceStep(s: State, e: Event, key: string)
    requires e.Call? ==> e.section.Whole? || e.section.WholeThenCrash?
    ensures var t := Apply(s, e);
            && (key in t.provider.receipts <==> key in s.provider.receipts || Accepts(s, e, key))
            && (Accepts(s, e, key) ==> key !in s.provider.receipts)
            && |t.provider.sent| - |s.provider.sent| == |t.provider.receipts| - |s.provider.receipts|
  {
  }

  lemma {:induction false} AcceptancesAreReceipts(events: seq<Event>, key: string)
    requires SingleSection(events)
    ensures Acceptances(events, key) == if key in Run(START, events).provider.receipts then 1 else 0
    ensures |Run(START, events).provider.sent| == |Run(START, events).provider.receipts|
  {
    if events != [] {
      var before, e := events[..|events| - 1], events[|events| - 1];
      assert forall i :: 0 <= i < |before| ==> before[i] == events[i];
      AcceptancesAreReceipts(before, key);
      AcceptanceStep(Run(START, before), e, key);
    }
  }

  /** With the single-section doubles a key is accepted at most once however claims overlap and crash, and
      exactly once, with the row's own payload, when its row is sent. */
  lemma AcceptedAtMostOnce(events: seq<Event>, id: nat)
    requires SingleSection(events) && id in Run(START, events).rows
    ensures var s := Run(START, events);
            var key := s.rows[id].providerKey;
            && Acceptances(events, key) <= 1
            && (s.rows[id].status == "sent" ==>
                  && Acceptances(events, key) == 1 && id in s.intents && key in s.provider.receipts
                  && s.provider.receipts[key].destination == s.intents[id].0
                  && s.provider.receipts[key].code == s.intents[id].1)
  {
    var s := Run(START, events);
    var key := s.rows[id].providerKey;
    StartInv();
    RunKeepsInv(START, events);
    AcceptancesAreReceipts(events, key);
    if key in s.provider.receipts { assert Filed(s, key, s.provider.receipts[key]); }
  }

  // ----- keys, leases and fences -----

  /** A staged row is never dropped and its provider key never changes. */
  lemma {:induction false} KeyNeverChanges(s: State, events: seq<Event>, id: nat)
    requires id in s.rows
    ensures id in Run(s, events).rows && Run(s, events).rows[id].providerKey == s.rows[id].providerKey
  {
    if events != [] {
      KeyNeverChanges(s, events[..|events| - 1], id);
      var before, e := Run(s, events[..|events| - 1]), events[|events| - 1];
      if !e.Stage? { ApplyEvolves(before, e); }
    }
  }

  lemma {:induction false} RunFront(s: State, events: seq<Event>)
    requires events != []
    ensures Run(s, events) == Run(Apply(s, events[0]), events[1..])
  {
    assert events == [events[0]] + events[1..];
    RunSplits(s, [events[0]], events[1..]);
    assert [events[0]][..0] == [];
    assert Run(s, []) == s;
  }

  lemma {:induction false} ClockRises(s: State, events: seq<Event>)
    ensures s.clock <= Run(s, events).clock
  {
    if events != [] {
      ClockRises(s, events[..|events| - 1]);
      if !events[|events| - 1].Stage? { ApplyEvolves(Run(s, events[..|events| - 1]), events[|events| - 1]); }
    }
  }

  /** The time before which nobody may claim the row: its lease, or its backoff. */
  function NotBefore(row: OutboxRow): Option<int> {
    if row.status == "claimed" then row.leaseExpiresAt
    else if row.status == "failed" then row.nextAttemptAt
    else None
  }

  /** The event is retention voiding the row, or its own claim holder finalising it. */
  predicate OwnMove(s: State, e: Event, id: nat) {
    || (e.Void? && id in e.ids)
    || ((e.FinaliseSent? || e.FinaliseFailed?) && e.worker in s.workers
        && s.workers[e.worker].job.row == id && HoldsClaim(s, s.workers[e.worker].job))
  }

  lemma OnlyOwnMoves(s: State, e: Event, id: nat)
    requires id in s.rows && NotBefore(s.rows[id]).Some? && s.clock < NotBefore(s.rows[id]).value
    requires id in Apply(s, e).rows && Apply(s, e).rows[id] != s.rows[id]
    ensures OwnMove(s, e, id)
  {
  }

  /** Until its lease or backoff runs out, the first thing to change a row is its own claim holder or
      retention; in particular nobody reclaims it. */
  lemma {:induction false} NoEarlyReclaim(s: State, events: seq<Event>, id: nat) returns (k: nat)
    requires id in s.rows && NotBefore(s.rows[id]).Some?
    requires Run(s, events).clock < NotBefore(s.rows[id]).value
    ensures k <= |events|
    ensures forall j :: 0 <= j <= k ==>
              id in Run(s, events[..j]).rows && Run(s, events[..j]).rows[id] == s.rows[id]
    ensures k < |events| ==> OwnMove(Run(s, events[..k]), events[k], id)
    decreases |events|
  {
    if events == [] { return 0; }
    var e, rest := events[0], events[1..];
    RunFront(s, events);
    KeyNeverChanges(s, [e], id);
    assert [e][..0] == [] && Run(s, [e]) == Apply(s, e);
    ClockRises(Apply(s, e), rest);
    if !e.Stage? { ApplyEvolves(s, e); }
    assert events[..0] == [];
    if Apply(s, e).rows[id] != s.rows[id] {
      OnlyOwnMoves(s, e, id);
      return 0;
    }
    k := NoEarlyReclaim(Apply(s, e), rest, id);
    k := k + 1;
    forall j | 1 <= j <= |events| ensures Run(s, events[..j]) == Run(Apply(s, e), rest[..j - 1]) {
      RunFront(s, events[..j]);
      assert events[..j][1..] == rest[..j - 1];
    }
  }

  lemma ClaimStaysGone(s: State, e: Event, id: nat, token: string)
    requires id in s.rows && token in s.issued && s.rows[id].claimToken != Some(token)
    ensures id in Apply(s, e).rows && token in Apply(s, e).issued && Apply(s, e).rows[id].claimToken != Some(token)
  {
  }

  predicate FinalisesFor(s: State, e: Event, id: nat, token: string) {
    && (e.FinaliseSent? || e.FinaliseFailed?) && e.worker in s.workers
    && s.workers[e.worker].job.row == id && s.workers[e.worker].job.claim == token
  }

  /** A superseded claim never comes back, and its holder can no longer finalise anything. */
  lemma {:induction false} SupersededCannotFinalise(s: State, events: seq<Event>, id: nat, token: string)
    requires id in s.rows && token in s.issued && s.rows[id].claimToken != Some(token)
    ensures var t := Run(s, events);
            && id in t.rows && token in t.issued && t.rows[id].claimToken != Some(token)
            && forall e: Event | FinalisesFor(t, e, id, token) :: Apply(t, e).rows == t.rows
  {
    if events != [] {
      SupersededCannotFinalise(s, events[..|events| - 1], id, token);
      ClaimStaysGone(Run(s, events[..|events| - 1]), events[|events| - 1], id, token);
    }
  }
}
