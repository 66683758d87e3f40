/** The two managers of disposable databases, each making cleanup part of its verdict, against a server
    whose every statement may raise, with or without its effect. */
module ScratchDatabases {
  import opened Collections
  import opened Common

  /** One statement sent to the server. */
  datatype Attempt = Attempt(raises: bool, effect: bool)

  /** What the server and the caller's operation do during one run; `leaves` is the inventory the
      operation leaves behind, whatever it did. */
  datatype Script = Script(
    preDropForce: Attempt,
    preDropPlain: Attempt,
    create: Attempt,
    operation: Option<int>,
    leaves: set<string>,
    dropForce: Attempt,
    dropPlain: Attempt,
    inventoryRaises: bool)

  datatype Outcome = Returned(value: int) | Blocked | OperationError | ScratchCleanupFailure

  datatype Cleanup = NotCreated | Pass | Fail

  /** `created` says that CREATE returned, which is all the managers know of it. */
  datatype Record = Record(purpose: string, created: bool, cleanup: Cleanup)

  datatype Job = Job(purpose: string, name: string, script: Script)

  // ----- one run as a function of the server's inventory -----

  function Dropped(server: set<string>, name: string, attempt: Attempt): set<string> {
    if attempt.effect then server - {name} else server
  }

  /** DROP WITH (FORCE), then the plain form when that raises; the flag says that no error escapes. */
  function DropScratch(server: set<string>, name: string, force: Attempt, plain: Attempt): (set<string>, bool) {
    var once := Dropped(server, name, force);
    if !force.raises then (once, true) else (Dropped(once, name, plain), !plain.raises)
  }

  function CreateScratch(server: set<string>, job: Job): (set<string>, bool) {
    var (cleared, dropped) := DropScratch(server, job.name, job.script.preDropForce, job.script.preDropPlain);
    if !dropped then (cleared, false)
    else (if job.script.create.effect then cleared + {job.name} else cleared, !job.script.create.raises)
  }

  /** The finally block: drop, then verify absence in the inventory. */
  function CleanUp(server: set<string>, job: Job): (set<string>, bool) {
    var (after, dropped) := DropScratch(server, job.name, job.script.dropForce, job.script.dropPlain);
    (after, dropped && !job.script.inventoryRaises && job.name !in after)
  }

  function OperationOutcome(script: Script): Outcome {
    match script.operation
    case Some(value) => Returned(value)
    case None => OperationError
  }

  /** NYAY-19: creation is inside the try, so every exit goes through the cleanup. */
  function Run19(server: set<string>, job: Job): (set<string>, Record, Outcome) {
    var (made, created) := CreateScratch(server, job);
    var (after, clean) := CleanUp(if created then job.script.leaves else made, job);
    (after, Record(job.purpose, created, if clean then Pass else Fail),
     if !clean then ScratchCleanupFailure else if !created then Blocked else OperationOutcome(job.script))
  }

  /** NYAY-17: creation comes before the try, so a failed creation is never cleaned up. */
  function Run17(server: set<string>, job: Job): (set<string>, Record, Outcome) {
    var (made, created) := CreateScratch(server, job);
    if !created then (made, Record(job.purpose, false, NotCreated), Blocked)
    else
      var (after, clean) := CleanUp(job.script.leaves, job);
      (after, Record(job.purpose, true, if clean then Pass else Fail),
       if clean then OperationOutcome(job.script) else ScratchCleanupFailure)
  }

  datatype Gate = Nyay17 | Nyay19

  function RunOne(gate: Gate, server: set<string>, job: Job): (set<string>, Record, Outcome) {
    match gate
    case Nyay17 => Run17(server, job)
    case Nyay19 => Run19(server, job)
  }

  // ----- the verdict -----

  function CountCreated(records: seq<Record>): nat { Count(records, (r: Record) => r.created) }

  function CountRemoved(records: seq<Record>): nat { Count(records, (r: Record) => r.cleanup.Pass?) }

  function CountFailed(records: seq<Record>): nat { Count(records, (r: Record) => r.cleanup.Fail?) }

  /** `inventory` is None when the closing inventory could not be read. */
  predicate AllCreatedRemoved(records: seq<Record>, owned: set<string>, baseline: set<string>,
                              inventory: Option<set<string>>) {
    && CountCreated(records) == CountRemoved(records) && CountFailed(records) == 0
    && inventory.Some? && inventory.value == baseline && owned * inventory.value == {}
  }

  /** The databases a server currently holds. */
  class Server {
    var databases: set<string>

    constructor (databases: set<string>)
      ensures this.databases == databases
    {
      this.databases := databases;
    }

    method DropStatement(name: string, attempt: Attempt) returns (raised: bool)
      modifies this
      ensures databases == Dropped(old(databases), name, attempt) && raised == attempt.raises
    {
      if attempt.effect { databases := databases - {name}; }
      raised := attempt.raises;
    }

    method Drop(name: string, force: Attempt, plain: Attempt) returns (ok: bool)
      modifies this
      ensures (databases, ok) == DropScratch(old(databases), name, force, plain)
    {
      var raised := DropStatement(name, force);
      if raised { raised := DropStatement(name, plain); }
      ok := !raised;
    }

    method Create(job: Job) returns (ok: bool)
      modifies this
      ensures (databases, ok) == CreateScratch(old(databases), job)
    {
      ok := Drop(job.name, job.script.preDropForce, job.script.preDropPlain);
      if ok {
        if job.script.create.effect { databases := databases + {job.name}; }
        ok := !job.script.create.raises;
      }
    }
  }

  class ScratchDatabaseManager {
    const gate: Gate
    const server: Server
    const baseline: set<string>
    var records: seq<Record>
    var ownedNames: set<string>

    constructor (gate: Gate, server: Server)
      ensures this.gate == gate && this.server == server && baseline == server.databases
      ensures records == [] && ownedNames == {}
    {
      this.gate, this.server, baseline := gate, server, server.databases;
      records, ownedNames := [], {};
    }

    method Run(job: Job) returns (outcome: Outcome)
      modifies this, server
      ensures var (after, record, result) := RunOne(gate, old(server.databases), job);
              && server.databases == after && outcome == result
              && records == old(records) + [record] && ownedNames == old(ownedNames) + {job.name}
    {
      ownedNames := ownedNames + {job.name};
      var created := server.Create(job);
      if gate.Nyay17? && !created {
        records := records + [Record(job.purpose, false, NotCreated)];
        return Blocked;
      }
      if created { server.databases := job.script.leaves; }
      var dropped := server.Drop(job.name, job.script.dropForce, job.script.dropPlain);
      if !dropped || job.script.inventoryRaises || job.name in server.databases {
        records := records + [Record(job.purpose, created, Fail)];
        return ScratchCleanupFailure;
      }
      records := records + [Record(job.purpose, created, Pass)];
      if !created { return Blocked; }
      return OperationOutcome(job.script);
    }
  }

  // ----- what one run guarantees -----

  /** NYAY-19: whatever CREATE, the operation or DROP does, the run leaves its name off the server or
      raises ScratchCleanupFailure. */
  lemma Run19CleansOrRaises(server: set<string>, job: Job)
    ensures var (after, record, outcome) := Run19(server, job);
            && (job.name !in after || outcome.ScratchCleanupFailure?)
            && (record.cleanup.Fail? <==> outcome.ScratchCleanupFailure?)
            && (outcome.Returned? ==> record == Record(job.purpose, true, Pass))
  {
  }

  /** NYAY-17 does not have that guarantee: a CREATE that raises after taking effect leaves the name
      behind under an ordinary Blocked. For a fresh name this is the only way it can. */
  lemma Run17LeaksExactly(server: set<string>, job: Job)
    requires job.name !in server
    ensures var (after, record, outcome) := Run17(server, job);
            job.name in after && !outcome.ScratchCleanupFailure? <==>
            DropScratch(server, job.name, job.script.preDropForce, job.script.preDropPlain).1
            && job.script.create.raises && job.script.create.effect
  {
  }

  // ----- what a sequence of runs guarantees -----

  /** Inventory and records after the jobs. */
  function Jobs(gate: Gate, server: set<string>, jobs: seq<Job>): (set<string>, seq<Record>) {
    if jobs == [] then (server, [])
    else
      var (before, records) := Jobs(gate, server, jobs[..|jobs| - 1]);
      var (after, record, _) := RunOne(gate, before, jobs[|jobs| - 1]);
      (after, records + [record])
  }

  function Owned(jobs: seq<Job>): set<string> {
    set i | 0 <= i < |jobs| :: jobs[i].name
  }

  predicate CreatedAndRemoved(r: Record) { r.created && r.cleanup.Pass? }

  lemma {:induction false} CountsDecide(records: seq<Record>)
    requires forall i :: 0 <= i < |records| ==> !records[i].cleanup.NotCreated?
    ensures CountRemoved(records) + CountFailed(records) == |records| && CountCreated(records) <= |records|
    ensures CountCreated(records) == |records| <==> forall i :: 0 <= i < |records| ==> records[i].created
    ensures CountFailed(records) == 0 <==> forall i :: 0 <= i < |records| ==> records[i].cleanup.Pass?
  {
    if records != [] { CountsDecide(records[..|records| - 1]); }
  }

  lemma {:induction false} Jobs19Records(server: set<string>, jobs: seq<Job>)
    ensures var records := Jobs(Nyay19, server, jobs).1;
            |records| == |jobs| && forall i :: 0 <= i < |records| ==> !records[i].cleanup.NotCreated?
  {
    if jobs != [] { Jobs19Records(server, jobs[..|jobs| - 1]); }
  }

  /** NYAY-19: the verdict after any runs is positive exactly when every run's CREATE returned, every
      cleanup was verified, and the server is back at its baseline with none of the names on it. */
  lemma {:induction false} Verdict19Exactly(server: set<string>, jobs: seq<Job>, inventory: Option<set<string>>)
    ensures var records := Jobs(Nyay19, server, jobs).1;
            AllCreatedRemoved(records, Owned(jobs), server, inventory) <==>
            && (forall i :: 0 <= i < |records| ==> CreatedAndRemoved(records[i]))
            && inventory == Some(server) && Owned(jobs) * server == {}
  {
    Jobs19Records(server, jobs);
    CountsDecide(Jobs(Nyay19, server, jobs).1);
  }

  /** The two DROPs before CREATE do not both raise, and CREATE does not raise. */
  predicate CreateReturns(job: Job) {
    !(job.script.preDropForce.raises && job.script.preDropPlain.raises) && !job.script.create.raises
  }

  /** A record says created exactly when CREATE was reached and returned, in either manager and
      whatever the runs before it left on the server. */
  lemma {:induction false} CreatedExactly(gate: Gate, server: set<string>, jobs: seq<Job>)
    ensures var records := Jobs(gate, server, jobs).1;
            |records| == |jobs| && forall i :: 0 <= i < |jobs| ==> (records[i].created <==> CreateReturns(jobs[i]))
  {
    if jobs != [] { CreatedExactly(gate, server, jobs[..|jobs| - 1]); }
  }

  predicate NotCreatedExactly(r: Record) { r.cleanup.NotCreated? <==> !r.created }

  predicate AllMarked(records: seq<Record>) {
    forall i :: 0 <= i < |records| ==> NotCreatedExactly(records[i])
  }

  lemma Run17Record(server: set<string>, job: Job)
    ensures NotCreatedExactly(Run17(server, job).1)
  {
  }

  /** NYAY-17 leaves NotCreated in a record exactly when CREATE was not reached or did not return. */
  lemma {:induction false} Jobs17Records(server: set<string>, jobs: seq<Job>)
    ensures AllMarked(Jobs(Nyay17, server, jobs).1)
  {
    if jobs != [] {
      var before := jobs[..|jobs| - 1];
      Jobs17Records(server, before);
      Run17Record(Jobs(Nyay17, server, before).0, jobs[|jobs| - 1]);
    }
  }

  lemma {:induction false} Counts17(records: seq<Record>)
    requires AllMarked(records)
    ensures CountCreated(records) == CountRemoved(records) + CountFailed(records)
  {
    if records != [] { Counts17(records[..|records| - 1]); }
  }

  /** NYAY-17: the verdict after any runs is positive exactly when no cleanup failed and the server is back
      at its baseline with none of the names on it; whether any CREATE returned does not enter. */
  lemma {:induction false} Verdict17Exactly(server: set<string>, jobs: seq<Job>, inventory: Option<set<string>>)
    ensures var records := Jobs(Nyay17, server, jobs).1;
            AllCreatedRemoved(records, Owned(jobs), server, inventory) <==>
            && (forall i :: 0 <= i < |records| ==> !records[i].cleanup.Fail?)
            && inventory == Some(server) && Owned(jobs) * server == {}
  {
    var records := Jobs(Nyay17, server, jobs).1;
    Jobs17Records(server, jobs);
    Counts17(records);
    CountExtremes(records, (r: Record) => r.cleanup.Fail?);
  }

  /** So a positive NYAY-17 verdict also means that every run's CREATE returned exactly when each job's
      statements up to CREATE let it. */
  lemma Verdict17MeansCreatedExactly(server: set<string>, jobs: seq<Job>, inventory: Option<set<string>>)
    requires AllCreatedRemoved(Jobs(Nyay17, server, jobs).1, Owned(jobs), server, inventory)
    ensures var records := Jobs(Nyay17, server, jobs).1;
            (forall i :: 0 <= i < |records| ==> CreatedAndRemoved(records[i])) <==>
            forall i :: 0 <= i < |jobs| ==> CreateReturns(jobs[i])
  {
    CreatedExactly(Nyay17, server, jobs);
    Jobs17Records(server, jobs);
    Verdict17Exactly(server, jobs, inventory);
  }

  /** The gap is inhabited, for every fresh name: a CREATE that raises without effect, and nothing else
      that goes wrong, gives a positive NYAY-17 verdict and a negative NYAY-19 one. */
  lemma Verdict17MissesCreation(server: set<string>, job: Job)
    requires job.name !in server && job.script.create == Attempt(true, false)
    ensures AllCreatedRemoved(Jobs(Nyay17, server, [job]).1, Owned([job]), server, Some(server))
    ensures !AllCreatedRemoved(Jobs(Nyay19, server, [job]).1, Owned([job]), server, Some(server))
  {
    Verdict17Exactly(server, [job], Some(server));
    Verdict19Exactly(server, [job], Some(server));
    CreatedExactly(Nyay19, server, [job]);
    CreatedExactly(Nyay17, server, [job]);
    Jobs17Records(server, [job]);
    assert Owned([job]) == {job.name};
  }
}
