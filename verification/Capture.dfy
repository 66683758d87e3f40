/** The local OTP capture server: a provider double that binds each idempotency token to one delivery
    and shows the latest accepted one. */
module Capture {
  import opened Collections
  import opened Common
  import T = Text

  const MESSAGE_PREFIX := "Your NyayOne verification code is "

  datatype Shown = Shown(to: string, code: string)

  datatype Bound = Bound(shown: Shown, receipt: string)

  datatype Answer = InvalidContract | IdempotencyConflict | Accepted(receipt: string)

  /** A request that meets the contract. */
  datatype Request = Request(token: string, shown: Shown)

  predicate SixDigits(code: string) {
    |code| == 6 && forall i :: 0 <= i < |code| ==> T.IsAsciiDigit(code[i])
  }

  function Parse(payload: Value, header: string): Option<Request> {
    if !payload.Dict? || payload.entries.Keys != {"to", "message", "idempotency_key"} then None
    else
      var token, to, message := payload.Get("idempotency_key"), payload.Get("to"), payload.Get("message");
      if !token.Text? || !to.Text? || !message.Text? then None
      else if to.text == "" || |to.text| > 320 || !T.StartsWith(message.text, MESSAGE_PREFIX)
              || !T.LowerHex64(header) || token.text != header then None
      else
        var code := message.text[|MESSAGE_PREFIX|..];
        if SixDigits(code) then Some(Request(header, Shown(to.text, code))) else None
  }

  /** The request body a sender writes for one delivery. */
  function Print(r: Request): Value {
    Dict(map["to" := Text(r.shown.to), "message" := Text(MESSAGE_PREFIX + r.shown.code),
             "idempotency_key" := Text(r.token)])
  }

  predicate Sendable(r: Request) {
    T.LowerHex64(r.token) && 0 < |r.shown.to| <= 320 && SixDigits(r.shown.code)
  }

  /** The contract accepts exactly the printed deliveries, and reads back what was printed. */
  lemma ParseUndoesPrint(payload: Value, header: string, r: Request)
    ensures Parse(payload, header) == Some(r) <==> payload == Print(r) && header == r.token && Sendable(r)
  {
    var keys := Print(r).entries.Keys;
    assert keys == {"to", "message", "idempotency_key"};
    if payload == Print(r) {
      assert (MESSAGE_PREFIX + r.shown.code)[|MESSAGE_PREFIX|..] == r.shown.code;
    }
    if Parse(payload, header) == Some(r) {
      var message := payload.Get("message").text;
      assert message == MESSAGE_PREFIX + r.shown.code;
      assert payload.entries == Print(r).entries;
    }
  }

  // ----- the server -----

  datatype State = State(latest: Option<Shown>, deliveries: map<string, Bound>)

  function Accept(receiptOf: string -> string, s: State, payload: Value, header: string): (State, Answer) {
    match Parse(payload, header)
    case None => (s, InvalidContract)
    case Some(r) =>
      if r.token in s.deliveries && s.deliveries[r.token].shown != r.shown then (s, IdempotencyConflict)
      else
        (State(Some(r.shown),
               if r.token in s.deliveries then s.deliveries
               else s.deliveries[r.token := Bound(r.shown, receiptOf(r.token))]),
         Accepted(receiptOf(r.token)))
  }

  /** LATEST and DELIVERIES; every method holds STATE_LOCK for its state changes. `receiptOf` is the
      SHA-256 receipt of a token. */
  class CaptureServer {
    const receiptOf: string -> string
    var latest: Option<Shown>
    var deliveries: map<string, Bound>

    constructor (receiptOf: string -> string)
      ensures this.receiptOf == receiptOf && Contents() == State(None, map[])
    {
      this.receiptOf := receiptOf;
      latest, deliveries := None, map[];
    }

    function Contents(): State
      reads this
    {
      State(latest, deliveries)
    }

    method AcceptDelivery(payload: Value, header: string) returns (answer: Answer)
      modifies this
      ensures (Contents(), answer) == Accept(receiptOf, old(Contents()), payload, header)
    {
      if !payload.Dict? || payload.entries.Keys != {"to", "message", "idempotency_key"} { return InvalidContract; }
      var token, to, message := payload.Get("idempotency_key"), payload.Get("to"), payload.Get("message");
      if !token.Text? || !to.Text? || !message.Text? { return InvalidContract; }
      if to.text == "" || |to.text| > 320 || !T.StartsWith(message.text, MESSAGE_PREFIX)
         || !T.LowerHex64(header) || token.text != header {
        return InvalidContract;
      }
      var shown := Shown(to.text, message.text[|MESSAGE_PREFIX|..]);
      if !SixDigits(shown.code) { return InvalidContract; }
      var receipt := receiptOf(header);
      if header in deliveries && deliveries[header].shown != shown { return IdempotencyConflict; }
      if header !in deliveries { deliveries := deliveries[header := Bound(shown, receipt)]; }
      latest := Some(shown);
      answer := Accepted(receipt);
    }

    method Reset()
      modifies this
      ensures Contents() == State(None, map[])
    {
      latest, deliveries := None, map[];
    }

    /** What another thread does in one critical section. */
    method Serve(e: Event)
      modifies this
      ensures Contents() == After(receiptOf, old(Contents()), e)
    {
      match e
      case Sent(payload, header) => var answer := AcceptDelivery(payload, header);
      case WasReset => Reset();
    }

    method ServeAll(ghost done: seq<Event>, batch: seq<Event>)
      requires Contents() == Run(receiptOf, done)
      modifies this
      ensures Contents() == Run(receiptOf, done + batch)
    {
      var i := 0;
      assert done + batch[..0] == done;
      while i < |batch|
        invariant 0 <= i <= |batch|
        invariant Contents() == Run(receiptOf, done + batch[..i])
      {
        RunAppend(receiptOf, done + batch[..i], batch[i]);
        assert done + batch[..i + 1] == (done + batch[..i]) + [batch[i]];
        Serve(batch[i]);
        i := i + 1;
      }
      assert batch[..i] == batch;
    }

    /** The waiter releases the lock while it sleeps; `arriving` is what the other threads do in each of
        its sleeps, the last of which ends with the deadline. `history` is all that was done before.
        It returns the last accepted delivery as of the first check that finds one since a reset, and
        None when the deadline comes first. */
    method AwaitDelivery(ghost history: seq<Event>, arriving: seq<seq<Event>>) returns (snapshot: Option<Shown>)
      requires Contents() == Run(receiptOf, history)
      modifies this
      ensures Contents() == Run(receiptOf, Woken(history, arriving))
      ensures snapshot == ShownOf(LastAgreeing(Woken(history, arriving)))
    {
      ghost var done := history;
      LatestIsLastAccepted(receiptOf, done);
      var sleeps := 0;
      while latest.None? && sleeps < |arriving|
        invariant 0 <= sleeps <= |arriving|
        invariant Contents() == Run(receiptOf, done) && latest == ShownOf(LastAgreeing(done))
        invariant Woken(history, arriving) == Woken(done, arriving[sleeps..])
        decreases |arriving| - sleeps
      {
        ServeAll(done, arriving[sleeps]);
        done := done + arriving[sleeps];
        LatestIsLastAccepted(receiptOf, done);
        assert arriving[sleeps..][1..] == arriving[sleeps + 1..];
        sleeps := sleeps + 1;
      }
      snapshot := latest;
    }
  }

  // ----- runs -----

  datatype Event = Sent(payload: Value, header: string) | WasReset

  function After(receiptOf: string -> string, s: State, e: Event): State {
    match e
    case Sent(payload, header) => Accept(receiptOf, s, payload, header).0
    case WasReset => State(None, map[])
  }

  function Run(receiptOf: string -> string, events: seq<Event>): State {
    if events == [] then State(None, map[])
    else After(receiptOf, Run(receiptOf, events[..|events| - 1]), events[|events| - 1])
  }

  function Asks(e: Event): Option<Request> {
    if e.Sent? then Parse(e.payload, e.header) else None
  }

  /** The first valid request for the token since the last reset. */
  function FirstAsked(events: seq<Event>, token: string): Option<Request> {
    if events == [] || events[|events| - 1].WasReset? then None
    else
      var earlier := FirstAsked(events[..|events| - 1], token);
      var asked := Asks(events[|events| - 1]);
      if earlier.Some? then earlier
      else if asked.Some? && asked.value.token == token then asked
      else None
  }

  /** The last request since the last reset that repeats, or is, the first one for its token. */
  function LastAgreeing(events: seq<Event>): Option<Request> {
    if events == [] || events[|events| - 1].WasReset? then None
    else
      var asked := Asks(events[|events| - 1]);
      if asked.Some? && FirstAsked(events, asked.value.token) == asked then asked
      else LastAgreeing(events[..|events| - 1])
  }

  function ShownOf(r: Option<Request>): Option<Shown> {
    if r.Some? then Some(r.value.shown) else None
  }

  /** The history up to the check at which a waiter stops. */
  function Woken(history: seq<Event>, arriving: seq<seq<Event>>): seq<Event>
    decreases |arriving|
  {
    if LastAgreeing(history).Some? || arriving == [] then history else Woken(history + arriving[0], arriving[1..])
  }

  function Together(batches: seq<seq<Event>>): seq<Event> {
    FlatMap(batches, (batch: seq<Event>) => batch)
  }

  lemma RunAppend(receiptOf: string -> string, events: seq<Event>, e: Event)
    ensures Run(receiptOf, events + [e]) == After(receiptOf, Run(receiptOf, events), e)
  {
    assert (events + [e])[..|events|] == events;
  }

  /** After any run a token is bound exactly when a valid request for it came since the last reset, and
      it is bound to the first such request, whatever came later. */
  lemma {:induction false} BoundToFirst(receiptOf: string -> string, events: seq<Event>, token: string)
    ensures var s := Run(receiptOf, events);
            var first := FirstAsked(events, token);
            && (token in s.deliveries <==> first.Some?)
            && (first.Some? ==> first.value.token == token
                                && s.deliveries[token] == Bound(first.value.shown, receiptOf(token)))
  {
    if events != [] {
      BoundToFirst(receiptOf, events[..|events| - 1], token);
    }
  }

  /** What the next request is answered, by the history alone: a valid request is accepted when it agrees
      with the first one for its token, always with the same receipt, and is a conflict otherwise; only
      an acceptance changes the state. */
  lemma AnswerByHistory(receiptOf: string -> string, events: seq<Event>, payload: Value, header: string)
    ensures var s := Run(receiptOf, events);
            var (after, answer) := Accept(receiptOf, s, payload, header);
            && (answer == InvalidContract <==> Parse(payload, header).None?)
            && (Parse(payload, header).Some? ==>
                  var r := Parse(payload, header).value;
                  var first := FirstAsked(events, r.token);
                  answer ==
                  if first.None? || first == Some(r) then Accepted(receiptOf(r.token)) else IdempotencyConflict)
            && (!answer.Accepted? ==> after == s)
  {
    if Parse(payload, header).Some? {
      BoundToFirst(receiptOf, events, Parse(payload, header).value.token);
    }
  }

  /** LATEST is the last accepted delivery, and it is bound in DELIVERIES. */
  lemma {:induction false} LatestIsLastAccepted(receiptOf: string -> string, events: seq<Event>)
    ensures var s := Run(receiptOf, events);
            var last := LastAgreeing(events);
            && s.latest == ShownOf(last)
            && (last.Some? ==> last.value.token in s.deliveries
                               && s.deliveries[last.value.token].shown == last.value.shown)
  {
    if events != [] {
      var init, e := events[..|events| - 1], events[|events| - 1];
      LatestIsLastAccepted(receiptOf, init);
      if Asks(e).Some? {
        BoundToFirst(receiptOf, init, Asks(e).value.token);
      }
    }
  }

  predicate Asked(events: seq<Event>, token: string) {
    FirstAsked(events, token).Some?
  }

  /** A waiter is shown a delivery exactly when a valid request has come since the last reset: no
      elapsed time grants it, and the first valid request is always accepted. */
  lemma {:induction false} AwaitNeedsAcceptance(receiptOf: string -> string, events: seq<Event>)
    ensures Run(receiptOf, events).latest.Some? <==> exists token :: Asked(events, token)
  {
    if events != [] && events[|events| - 1].Sent? {
      var init, e := events[..|events| - 1], events[|events| - 1];
      AwaitNeedsAcceptance(receiptOf, init);
      if Run(receiptOf, init).latest.Some? {
        var token :| Asked(init, token);
        assert Asked(events, token);
      } else if Asks(e).Some? {
        var token := Asks(e).value.token;
        BoundToFirst(receiptOf, init, token);
        assert !Asked(init, token);
        assert Asked(events, token);
      } else {
        forall token ensures !Asked(events, token) { assert !Asked(init, token); }
      }
    } else {
      forall token ensures !Asked(events, token) { }
    }
  }

  predicate Silent(history: seq<Event>, arriving: seq<seq<Event>>, k: nat)
    requires k <= |arriving|
  {
    LastAgreeing(history + Together(arriving[..k])).None?
  }

  /** A waiter times out exactly when none of its checks finds an accepted delivery since a reset; an
      acceptance that is reset again within one sleep goes unseen. */
  lemma {:induction false} TimesOutExactly(history: seq<Event>, arriving: seq<seq<Event>>)
    ensures LastAgreeing(Woken(history, arriving)).None? <==>
            forall k: nat | k <= |arriving| :: Silent(history, arriving, k)
    decreases |arriving|
  {
    assert arriving[..0] == [] && history + [] == history;
    assert Silent(history, arriving, 0) <==> LastAgreeing(history).None?;
    if LastAgreeing(history).None? && arriving != [] {
      var more, rest := history + arriving[0], arriving[1..];
      TimesOutExactly(more, rest);
      forall k: nat | k <= |rest| ensures Silent(more, rest, k) <==> Silent(history, arriving, k + 1) {
        assert arriving[..k + 1] == [arriving[0]] + rest[..k];
        assert arriving[..k + 1][1..] == rest[..k];
        assert history + Together(arriving[..k + 1]) == more + Together(rest[..k]);
      }
      if forall k: nat | k <= |rest| :: Silent(more, rest, k) {
        forall k: nat | k <= |arriving| ensures Silent(history, arriving, k) {
          if k > 0 { assert Silent(more, rest, k - 1); }
        }
      } else {
        var k: nat :| k <= |rest| && !Silent(more, rest, k);
        assert !Silent(history, arriving, k + 1);
      }
    }
  }

  predicate ResetFree(events: seq<Event>) {
    forall i :: 0 <= i < |events| ==> events[i].Sent?
  }

  /** Between resets a binding is for good: after any further requests it is the same triple. */
  lemma {:induction false} BindingForGood(receiptOf: string -> string, before: seq<Event>, later: seq<Event>,
                                          token: string)
    requires ResetFree(later) && token in Run(receiptOf, before).deliveries
    ensures token in Run(receiptOf, before + later).deliveries
    ensures Run(receiptOf, before + later).deliveries[token] == Run(receiptOf, before).deliveries[token]
  {
    if later == [] {
      assert before + later == before;
    } else {
      var init := later[..|later| - 1];
      BindingForGood(receiptOf, before, init, token);
      assert (before + later)[..|before + later| - 1] == before + init;
    }
  }
}
