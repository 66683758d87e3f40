/** The token-idempotent OTP provider doubles. A receipt text "nyay17-gate-<n>" is its number n. */
module Provider {
  import opened Common

  datatype Receipt = Receipt(destination: string, code: string, number: nat)

  /** What a double has recorded: every accepted delivery in order, and the receipt filed under each token. */
  datatype Ledger = Ledger(sent: seq<(string, string)>, receipts: map<string, Receipt>)

  datatype Outcome = Returned(number: nat) | SendError | Crashed

  const EMPTY := Ledger([], map[])

  /** A token already on file answers without a new delivery. */
  function Replay(p: Ledger, destination: string, code: string, token: string): Outcome
    requires token in p.receipts
  {
    var known := p.receipts[token];
    if known.destination == destination && known.code == code then Returned(known.number) else SendError
  }

  /** Check and record in one critical section. */
  function Capture(p: Ledger, destination: string, code: string, token: string): (Ledger, Outcome) {
    if token in p.receipts then (p, Replay(p, destination, code, token))
    else
      var number := |p.receipts| + 1;
      (Ledger(p.sent + [(destination, code)], p.receipts[token := Receipt(destination, code, number)]),
       Returned(number))
  }

  /** One critical section, then a crash before the caller learns of the acceptance. */
  function AcceptThenCrash(p: Ledger, destination: string, code: string, token: string): (Ledger, Outcome) {
    var (after, outcome) := Capture(p, destination, code, token);
    (after, if token in p.receipts then outcome else Crashed)
  }

  /** First critical section of the blocking double: None means the call is now held. */
  function Enter(p: Ledger, destination: string, code: string, token: string): (Ledger, Option<Outcome>) {
    if token in p.receipts then (p, Some(Replay(p, destination, code, token)))
    else (p.(sent := p.sent + [(destination, code)]), None)
  }

  /** Second critical section of the blocking double. */
  function Leave(p: Ledger, destination: string, code: string, token: string): (Ledger, Outcome) {
    var number := |p.receipts| + 1;
    (p.(receipts := p.receipts[token := Receipt(destination, code, number)]), Returned(number))
  }

  class CapturingSender {
    var sent: seq<(string, string)>
    var receipts: map<string, Receipt>

    constructor ()
      ensures View() == EMPTY
    {
      sent, receipts := [], map[];
    }

    function View(): Ledger
      reads this
    {
      Ledger(sent, receipts)
    }

    method SendIdempotent(destination: string, code: string, token: string) returns (outcome: Outcome)
      modifies this
      ensures (View(), outcome) == Capture(old(View()), destination, code, token)
    {
      if token in receipts {
        var existing := receipts[token];
        if (existing.destination, existing.code) != (destination, code) { return SendError; }
        return Returned(existing.number);
      }
      var number := |receipts| + 1;
      receipts := receipts[token := Receipt(destination, code, number)];
      sent := sent + [(destination, code)];
      return Returned(number);
    }
  }

  class AcceptedCrashSender {
    var sent: seq<(string, string)>
    var receipts: map<string, Receipt>
    var attempts: nat

    constructor ()
      ensures View() == EMPTY && attempts == 0
    {
      sent, receipts, attempts := [], map[], 0;
    }

    function View(): Ledger
      reads this
    {
      Ledger(sent, receipts)
    }

    method SendIdempotent(destination: string, code: string, token: string) returns (outcome: Outcome)
      modifies this
      ensures (View(), outcome) == AcceptThenCrash(old(View()), destination, code, token)
      ensures attempts == old(attempts) + 1
    {
      attempts := attempts + 1;
      if token in receipts {
        var existing := receipts[token];
        if (existing.destination, existing.code) != (destination, code) { return SendError; }
        return Returned(existing.number);
      }
      var number := |receipts| + 1;
      receipts := receipts[token := Receipt(destination, code, number)];
      sent := sent + [(destination, code)];
      return Crashed;
    }
  }

  class BlockingSender {
    var sent: seq<(string, string)>
    var receipts: map<string, Receipt>
    const fail: bool

    constructor (fail: bool)
      ensures View() == EMPTY && this.fail == fail
    {
      sent, receipts := [], map[];
      this.fail := fail;
    }

    function View(): Ledger
      reads this
    {
      Ledger(sent, receipts)
    }

    /** Up to the point where the caller waits for release. */
    method Begin(destination: string, code: string, token: string) returns (outcome: Option<Outcome>)
      modifies this
      ensures (View(), outcome) == Enter(old(View()), destination, code, token)
    {
      if token in receipts {
        var existing := receipts[token];
        if (existing.destination, existing.code) != (destination, code) { return Some(SendError); }
        return Some(Returned(existing.number));
      }
      sent := sent + [(destination, code)];
      return None;
    }

    /** After the wait; a wait that timed out crashes the caller. */
    method Complete(destination: string, code: string, token: string, released: bool) returns (outcome: Outcome)
      modifies this
      ensures !released ==> outcome == Crashed && View() == old(View())
      ensures released && fail ==> outcome == SendError && View() == old(View())
      ensures released && !fail ==> (View(), outcome) == Leave(old(View()), destination, code, token)
    {
      if !released { return Crashed; }
      if fail { return SendError; }
      var number := |receipts| + 1;
      receipts := receipts[token := Receipt(destination, code, number)];
      return Returned(number);
    }
  }

  // ----- what idempotence means -----

  /** Against the single-section double, any number of calls under one token accept one delivery and
      answer alike; a different payload is refused and records nothing. */
  lemma CaptureIsIdempotent(p: Ledger, destination: string, code: string, token: string,
                            destination2: string, code2: string)
    ensures var (once, first) := Capture(p, destination, code, token);
            var (twice, second) := Capture(once, destination2, code2, token);
            && twice == once
            && (first.Returned? && (destination2, code2) == (destination, code) ==> second == first)
            && (first.Returned? && (destination2, code2) != (destination, code) ==> second == SendError)
  {
  }

  /** A call that crashed after acceptance and the retry together are one plain call. */
  lemma CrashThenRetry(p: Ledger, destination: string, code: string, token: string)
    ensures Capture(AcceptThenCrash(p, destination, code, token).0, destination, code, token)
            == Capture(p, destination, code, token)
  {
  }

  /** Against the blocking double two overlapping calls under one fresh token deliver twice, get different
      receipts, and leave the later receipt on file. */
  lemma OverlapDeliversTwice(p: Ledger, destination: string, code: string, token: string)
    requires token !in p.receipts
    ensures var (p1, held1) := Enter(p, destination, code, token);
            var (p2, held2) := Enter(p1, destination, code, token);
            var (p3, first) := Leave(p2, destination, code, token);
            var (p4, second) := Leave(p3, destination, code, token);
            && held1.None? && held2.None? && |p4.sent| == |p.sent| + 2
            && first != second && Returned(p4.receipts[token].number) == second
  {
  }
}
