/**
 The request table of the SDK client (sdk/src/client.ts): ids, timers and the promises that
 wait for a control message.

 `State` and its steps say what one callback does; `Client` does it on its fields.  A run is
 any sequence of callbacks, with any response ids and codes the server cares to send.
 */
module PendingRequests {
  import opened Prelude

  type RequestId = string

  function Digit(d: nat): char
    requires d < 10
  {
    "0123456789"[d]
  }

  /** String(n) of a non-negative integer. */
  function Decimal(n: nat): (text: RequestId)
    ensures text != ""
  {
    (if n < 10 then "" else Decimal(n / 10)) + [Digit(n % 10)]
  }

  lemma DigitInjective(d: nat, e: nat)
    requires d < 10 && e < 10 && Digit(d) == Digit(e)
    ensures d == e
  {
    assert forall i, j :: 0 <= i < j < 10 ==> "0123456789"[i] != "0123456789"[j];
  }

  /** Distinct counters give distinct ids. */
  lemma {:induction false} DecimalInjective(m: nat, n: nat)
    requires Decimal(m) == Decimal(n)
    ensures m == n
  {
    var restM, restN := if m < 10 then "" else Decimal(m / 10), if n < 10 then "" else Decimal(n / 10);
    assert Decimal(m)[|restM|] == Digit(m % 10) && Decimal(n)[|restN|] == Digit(n % 10);
    DigitInjective(m % 10, n % 10);
    assert restM == Decimal(m)[..|restM|] && restN == Decimal(n)[..|restN|];
    if m >= 10 && n >= 10 {
      DecimalInjective(m / 10, n / 10);
    }
  }

  /** The number that a string of decimal digits stands for. */
  function Number(text: string): int {
    if text == "" then 0 else 10 * Number(text[..|text| - 1]) + (text[|text| - 1] as int - '0' as int)
  }

  /** The id is the counter, in digits. */
  lemma {:induction false} DecimalNumber(n: nat)
    ensures Number(Decimal(n)) == n
    ensures forall c :: c in Decimal(n) ==> '0' <= c <= '9'
  {
    var rest := if n < 10 then "" else Decimal(n / 10);
    assert Decimal(n)[..|rest|] == rest && Decimal(n)[|rest|] == Digit(n % 10);
    DigitNumber(n % 10);
    if n >= 10 {
      DecimalNumber(n / 10);
    }
  }

  lemma DigitNumber(d: nat)
    requires d < 10
    ensures Digit(d) as int - '0' as int == d
  {
  }

  // ---------------------------------------------------------------- what each callback does

  datatype Outcome = Resolved(code: int) | Refused(code: int) | TimedOut | SendFailed | ConnectionClosed

  datatype Settlement = Settlement(id: RequestId, outcome: Outcome)

  /** `pending` holds the keys of the Map in insertion order, `log` every resolve and reject call. */
  datatype State = State(open: bool, messageId: nat, pending: seq<RequestId>, timers: set<RequestId>, log: seq<Settlement>)

  const START := State(false, 0, [], {}, [])

  /** Map.set: an existing key keeps its place. */
  function With(pending: seq<RequestId>, id: RequestId): seq<RequestId> {
    if id in pending then pending else pending + [id]
  }

  function Settled(s: State, id: RequestId, outcome: Outcome): State {
    s.(pending := Without(s.pending, id), timers := s.timers - {id}, log := s.log + [Settlement(id, outcome)])
  }

  function Requested(s: State, sendOk: bool): State {
    if !s.open then s
    else
      var id := Decimal(s.messageId + 1);
      var waiting := s.(messageId := s.messageId + 1, pending := With(s.pending, id), timers := s.timers + {id});
      if sendOk then waiting else Settled(waiting, id, SendFailed)
  }

  function OutcomeOf(code: int): Outcome {
    if 200 <= code < 400 then Resolved(code) else Refused(code)
  }

  function Answered(s: State, id: RequestId, code: int): State {
    if id != "" && id in s.pending then Settled(s, id, OutcomeOf(code)) else s
  }

  /** Only a running timer fires. */
  function Expired(s: State, id: RequestId): State {
    if id in s.timers then Settled(s, id, TimedOut) else s
  }

  function Rejections(pending: seq<RequestId>): (log: seq<Settlement>)
    ensures |log| == |pending| && forall i :: 0 <= i < |log| ==> log[i] == Settlement(pending[i], ConnectionClosed)
  {
    if pending == [] then []
    else Rejections(pending[..|pending| - 1]) + [Settlement(pending[|pending| - 1], ConnectionClosed)]
  }

  function Keys(pending: seq<RequestId>): set<RequestId> {
    set id | id in pending
  }

  function Closed(s: State): State {
    State(false, s.messageId, [], s.timers - Keys(s.pending), s.log + Rejections(s.pending))
  }

  class Client {
    var open: bool  // ws is not null and in state OPEN
    var messageId: nat
    var pending: seq<RequestId>
    var timers: set<RequestId>
    var log: seq<Settlement>

    function View(): State
      reads this
    {
      State(open, messageId, pending, timers, log)
    }

    constructor ()
      ensures View() == START
    {
      open, messageId, pending, timers, log := false, 0, [], {}, [];
    }

    /** `None` is the immediate rejection of a request made without a connection. */
    method Request(sendOk: bool) returns (id: Option<RequestId>)
      modifies this
      ensures View() == Requested(old(View()), sendOk)
      ensures id == if old(open) then Some(Decimal(messageId)) else None
    {
      if !open {
        return None;
      }
      ghost var was := View();
      messageId := messageId + 1;
      var key := Decimal(messageId);
      timers := timers + {key};
      if key !in pending {
        pending := pending + [key];
      }
      assert View() == Requested(was, true);
      if !sendOk {
        timers := timers - {key};
        Delete(key);
        log := log + [Settlement(key, SendFailed)];
      }
      return Some(key);
    }

    method HandleCtrl(id: RequestId, code: int)
      modifies this
      ensures View() == Answered(old(View()), id, code)
    {
      if id != "" && id in pending {
        timers := timers - {id};
        Delete(id);
        if 200 <= code < 400 {
          log := log + [Settlement(id, Resolved(code))];
        } else {
          log := log + [Settlement(id, Refused(code))];
        }
      }
    }

    method HandleTimeout(id: RequestId)
      modifies this
      ensures View() == Expired(old(View()), id)
    {
      if id in timers {
        timers := timers - {id};
        Delete(id);
        log := log + [Settlement(id, TimedOut)];
      }
    }

    method HandleClose()
      modifies this
      ensures View() == Closed(old(View()))
    {
      open := false;
      for i := 0 to |pending|
        modifies this`timers, this`log
        invariant timers == old(timers) - Keys(pending[..i])
        invariant log == old(log) + Rejections(pending[..i])
      {
        assert pending[..i + 1][..i] == pending[..i];
        assert Keys(pending[..i + 1]) == Keys(pending[..i]) + {pending[i]};
        timers := timers - {pending[i]};
        log := log + [Settlement(pending[i], ConnectionClosed)];
      }
      assert pending[..|pending|] == pending;
      pending := [];
    }

    method Delete(id: RequestId)
      modifies this`pending
      ensures pending == Without(old(pending), id)
    {
      var keys := [];
      for i := 0 to |pending|
        invariant keys == Without(pending[..i], id)
      {
        assert pending[..i + 1][..i] == pending[..i];
        if pending[i] != id {
          keys := keys + [pending[i]];
        }
      }
      assert pending[..|pending|] == pending;
      pending := keys;
    }
  }

  // ---------------------------------------------------------------- runs

  datatype Event =
    | Connect
    | Disconnect
    | Request(sendOk: bool)
    | Ctrl(id: RequestId, code: int)
    | Timeout(id: RequestId)
    | Close

  function Next(s: State, e: Event): State {
    match e
    case Connect => s.(open := true)
    case Disconnect => s.(open := false)
    case Request(sendOk) => Requested(s, sendOk)
    case Ctrl(id, code) => Answered(s, id, code)
    case Timeout(id) => Expired(s, id)
    case Close => Closed(s)
  }

  function RunFrom(s: State, events: seq<Event>): State {
    if events == [] then s else Next(RunFrom(s, events[..|events| - 1]), events[|events| - 1])
  }

  ghost predicate Issued(s: State, id: RequestId) {
    exists k :: 1 <= k <= s.messageId && Decimal(k) == id
  }

  function SettledIds(log: seq<Settlement>): (ids: seq<RequestId>)
    ensures |ids| == |log| && forall i :: 0 <= i < |log| ==> ids[i] == log[i].id
  {
    if log == [] then [] else SettledIds(log[..|log| - 1]) + [log[|log| - 1].id]
  }

  function Settlements(log: seq<Settlement>, id: RequestId): nat {
    Count(SettledIds(log), id)
  }

  /** An issued id is pending once or settled once, never both; no other id is either. */
  ghost predicate Accounted(s: State, id: RequestId) {
    Count(s.pending, id) + Settlements(s.log, id) == if Issued(s, id) then 1 else 0
  }

  ghost predicate Sound(s: State) {
    && (forall id :: Accounted(s, id))
    && (forall id :: id in s.timers <==> id in s.pending)
  }

  // ---------------------------------------------------------------- counting

  lemma SettlementsAppend(log: seq<Settlement>, last: Settlement, id: RequestId)
    ensures Settlements(log + [last], id) == Settlements(log, id) + if last.id == id then 1 else 0
  {
    assert SettledIds(log + [last]) == SettledIds(log) + [last.id];
    CountAppend(SettledIds(log), last.id, id);
  }

  lemma SettlementsOfClose(log: seq<Settlement>, pending: seq<RequestId>, id: RequestId)
    ensures Settlements(log + Rejections(pending), id) == Settlements(log, id) + Count(pending, id)
  {
    assert SettledIds(log + Rejections(pending)) == SettledIds(log) + pending;
    CountConcat(SettledIds(log), pending, id);
  }

  /** The next id is new. */
  lemma NextIdIsNew(s: State, id: RequestId)
    ensures !Issued(s, Decimal(s.messageId + 1))
    ensures Issued(s.(messageId := s.messageId + 1), id) <==> Issued(s, id) || id == Decimal(s.messageId + 1)
  {
    if k :| 1 <= k <= s.messageId && Decimal(k) == Decimal(s.messageId + 1) {
      DecimalInjective(k, s.messageId + 1);
    }
    var next := s.(messageId := s.messageId + 1);
    if Issued(s, id) {
      var k :| 1 <= k <= s.messageId && Decimal(k) == id;
      assert 1 <= k <= next.messageId && Decimal(k) == id;
    }
    if id == Decimal(s.messageId + 1) {
      assert 1 <= s.messageId + 1 <= next.messageId && Decimal(s.messageId + 1) == id;
    }
  }

  // ---------------------------------------------------------------- every step keeps the books

  lemma SettledKeeps(s: State, gone: RequestId, outcome: Outcome)
    requires Sound(s) && gone in s.pending
    ensures Sound(Settled(s, gone, outcome))
  {
    var t := Settled(s, gone, outcome);
    forall id ensures Accounted(t, id) && (id in t.timers <==> id in t.pending) {
      assert Accounted(s, id) && Accounted(s, gone);
      CountedIsIn(s.pending, id);
      CountedIsIn(t.pending, id);
      WithoutCounts(s.pending, gone, id);
      SettlementsAppend(s.log, Settlement(gone, outcome), id);
      assert Issued(t, id) <==> Issued(s, id);
    }
  }

  lemma NextIdIsFree(s: State)
    requires Sound(s)
    ensures Decimal(s.messageId + 1) !in s.pending
  {
    var id := Decimal(s.messageId + 1);
    NextIdIsNew(s, id);
    assert Accounted(s, id);
    CountedIsIn(s.pending, id);
  }

  lemma IssuedCounts(s: State, t: State, id: RequestId)
    requires s.messageId == t.messageId
    ensures Issued(s, id) <==> Issued(t, id)
  {
  }

  lemma RegisteredAccounts(s: State, id: RequestId)
    requires s.open && Accounted(s, id) && Decimal(s.messageId + 1) !in s.pending
    ensures Accounted(Requested(s, true), id)
  {
    NextIdIsNew(s, id);
    IssuedCounts(s.(messageId := s.messageId + 1), Requested(s, true), id);
    CountAppend(s.pending, Decimal(s.messageId + 1), id);
  }

  /** Registering a new id, before the send is known to have worked. */
  lemma RegisteredKeeps(s: State)
    requires Sound(s) && s.open
    ensures Sound(Requested(s, true)) && Decimal(s.messageId + 1) in Requested(s, true).pending
  {
    NextIdIsFree(s);
    forall id ensures Accounted(Requested(s, true), id) {
      assert Accounted(s, id);
      RegisteredAccounts(s, id);
    }
  }

  lemma ClosedKeeps(s: State)
    requires Sound(s)
    ensures Sound(Closed(s))
  {
    forall id ensures Accounted(Closed(s), id) {
      assert Accounted(s, id);
      SettlementsOfClose(s.log, s.pending, id);
      assert Issued(Closed(s), id) <==> Issued(s, id);
    }
  }

  lemma SameTables(s: State, open: bool)
    requires Sound(s)
    ensures Sound(s.(open := open))
  {
    forall id ensures Accounted(s.(open := open), id) {
      assert Accounted(s, id);
      assert Issued(s.(open := open), id) <==> Issued(s, id);
    }
  }

  lemma StepKeeps(s: State, e: Event)
    requires Sound(s)
    ensures Sound(Next(s, e))
  {
    match e
    case Connect => SameTables(s, true);
    case Disconnect => SameTables(s, false);
    case Request(sendOk) =>
      if s.open {
        RegisteredKeeps(s);
        if !sendOk {
          SettledKeeps(Requested(s, true), Decimal(s.messageId + 1), SendFailed);
        }
      }
    case Ctrl(id, code) =>
      if id in s.pending {
        SettledKeeps(s, id, OutcomeOf(code));
      }
    case Timeout(id) =>
      if id in s.timers {
        SettledKeeps(s, id, TimedOut);
      }
    case Close => ClosedKeeps(s);
  }

  /** In every run, whatever the order of the callbacks. */
  lemma {:induction false} EveryRunIsSound(events: seq<Event>)
    ensures Sound(RunFrom(START, events))
  {
    if events == [] {
      assert forall id :: Accounted(START, id);
    } else {
      EveryRunIsSound(events[..|events| - 1]);
      StepKeeps(RunFrom(START, events[..|events| - 1]), events[|events| - 1]);
    }
  }

  /** A connection was made, and neither lost nor closed since. */
  function LinkUp(events: seq<Event>): bool {
    if events == [] then false
    else match events[|events| - 1]
         case Connect => true
         case Disconnect => false
         case Close => false
         case _ => LinkUp(events[..|events| - 1])
  }

  /** How many requests were made over a connection. */
  function Made(events: seq<Event>): nat {
    if events == [] then 0
    else Made(events[..|events| - 1]) + if events[|events| - 1].Request? && LinkUp(events[..|events| - 1]) then 1 else 0
  }

  /** The client is connected as the history says, and has counted the requests it made over a connection. */
  lemma {:induction false} LinkToldBy(events: seq<Event>)
    ensures RunFrom(START, events).open <==> LinkUp(events)
    ensures RunFrom(START, events).messageId == Made(events)
  {
    if events != [] {
      LinkToldBy(events[..|events| - 1]);
    }
  }

  /** Closing leaves nothing pending, no timer running, and every id ever issued settled exactly once. */
  lemma CloseSettlesAll(events: seq<Event>, id: RequestId)
    ensures var s := RunFrom(START, events + [Close]);
            s.pending == [] && s.timers == {} && (Issued(s, id) ==> Settlements(s.log, id) == 1)
  {
    var all := events + [Close];
    assert all[..|all| - 1] == events;
    EveryRunIsSound(all);
    var s := RunFrom(START, all);
    assert s == Closed(RunFrom(START, events));
    assert Accounted(s, id);
    forall t ensures t !in s.timers {
      assert t in s.timers <==> t in s.pending;
    }
  }

  // ---------------------------------------------------------------- which outcome

  /** What one callback means for a request that is still pending. */
  function Verdict(e: Event, id: RequestId): Option<Outcome> {
    match e
    case Ctrl(i, code) =>
      if i != id then None
      else if code >= 200 && code < 400 then Some(Resolved(code))
      else Some(Refused(code))
    case Timeout(i) => if i == id then Some(TimedOut) else None
    case Close => Some(ConnectionClosed)
    case _ => None
  }

  /** The outcome decided by the first callback that concerns a pending request. */
  function Fate(events: seq<Event>, id: RequestId): Option<Outcome> {
    if events == [] then None
    else
      match Fate(events[..|events| - 1], id)
      case Some(outcome) => Some(outcome)
      case None => Verdict(events[|events| - 1], id)
  }

  ghost predicate DecidedAs(s: State, id: RequestId, fate: Option<Outcome>) {
    match fate
    case None => id in s.pending
    case Some(outcome) => id !in s.pending && Settlement(id, outcome) in s.log
  }

  lemma {:induction false} InWithout(pending: seq<RequestId>, gone: RequestId, id: RequestId)
    ensures id in Without(pending, gone) <==> id in pending && id != gone
  {
    CountedIsIn(pending, id);
    CountedIsIn(Without(pending, gone), id);
    WithoutCounts(pending, gone, id);
  }

  lemma RejectedIn(pending: seq<RequestId>, id: RequestId)
    requires id in pending
    ensures Settlement(id, ConnectionClosed) in Rejections(pending)
  {
    var i :| 0 <= i < |pending| && pending[i] == id;
    assert Rejections(pending)[i] == Settlement(id, ConnectionClosed);
  }

  lemma IssuedStays(s: State, sendOk: bool, id: RequestId)
    requires Issued(s, id)
    ensures Issued(Requested(s, sendOk), id)
  {
    var k :| 1 <= k <= s.messageId && Decimal(k) == id;
    assert 1 <= k <= Requested(s, sendOk).messageId && Decimal(k) == id;
  }

  lemma NotTheNext(s: State, id: RequestId)
    requires Issued(s, id)
    ensures id != Decimal(s.messageId + 1)
  {
    NextIdIsNew(s, id);
  }

  lemma DecidedSettled(s: State, gone: RequestId, outcome: Outcome, id: RequestId, fate: Option<Outcome>)
    requires DecidedAs(s, id, fate) && id != gone
    ensures DecidedAs(Settled(s, gone, outcome), id, fate)
  {
    InWithout(s.pending, gone, id);
  }

  lemma DecidedRequest(s: State, sendOk: bool, id: RequestId, fate: Option<Outcome>)
    requires id != Decimal(s.messageId + 1) && DecidedAs(s, id, fate)
    ensures DecidedAs(Requested(s, sendOk), id, fate)
    decreases !sendOk
  {
    if s.open && !sendOk {
      DecidedRequest(s, true, id, fate);
      DecidedSettled(Requested(s, true), Decimal(s.messageId + 1), SendFailed, id, fate);
    }
  }

  lemma DecidedStep(s: State, e: Event, id: RequestId, fate: Option<Outcome>)
    requires Sound(s) && Issued(s, id) && id != "" && DecidedAs(s, id, fate)
    ensures DecidedAs(Next(s, e), id, if fate.Some? then fate else Verdict(e, id))
    ensures Issued(Next(s, e), id)
  {
    match e
    case Connect =>
    case Disconnect =>
    case Request(sendOk) =>
      IssuedStays(s, sendOk, id);
      NotTheNext(s, id);
      DecidedRequest(s, sendOk, id, fate);
    case Ctrl(i, code) => InWithout(s.pending, i, id);
    case Timeout(i) => InWithout(s.pending, i, id);
    case Close =>
      if id in s.pending {
        RejectedIn(s.pending, id);
      }
  }

  /**
   A request that is pending now ends as the first response, timeout or close for it says;
   whatever comes later changes neither the outcome nor that it is the only one.
   */
  lemma {:induction false} FirstFateWins(s: State, events: seq<Event>, id: RequestId)
    requires Sound(s) && id in s.pending
    ensures var t := RunFrom(s, events);
            && Sound(t) && Issued(t, id) && id != ""
            && DecidedAs(t, id, Fate(events, id))
            && (Fate(events, id).Some? ==> Settlements(t.log, id) == 1)
  {
    if events == [] {
      assert Accounted(s, id);
      CountedIsIn(s.pending, id);
      assert Issued(s, id);
    } else {
      var n := |events| - 1;
      FirstFateWins(s, events[..n], id);
      var before := RunFrom(s, events[..n]);
      StepKeeps(before, events[n]);
      DecidedStep(before, events[n], id, Fate(events[..n], id));
    }
    var t := RunFrom(s, events);
    assert Accounted(t, id);
    CountedIsIn(t.pending, id);
  }

  /** What becomes of a request at once: pending with a timer, rejected because sending failed, or not made at all. */
  lemma RequestTells(s: State, sendOk: bool)
    requires Sound(s)
    ensures var (t, id) := (Next(s, Request(sendOk)), Decimal(s.messageId + 1));
            if !s.open then t == s
            else
              && t.messageId == s.messageId + 1 && t.open
              && (sendOk ==> t.pending == s.pending + [id] && t.timers == s.timers + {id} && t.log == s.log)
              && (!sendOk ==> t.pending == s.pending && t.timers == s.timers && t.log == s.log + [Settlement(id, SendFailed)])
  {
    var id := Decimal(s.messageId + 1);
    NextIdIsFree(s);
    assert id in s.timers <==> id in s.pending;
    assert (s.pending + [id])[..|s.pending|] == s.pending;
  }

  lemma {:induction false} OneOutcome(log: seq<Settlement>, id: RequestId, a: Outcome, b: Outcome)
    requires Settlement(id, a) in log && Settlement(id, b) in log && Settlements(log, id) <= 1
    ensures a == b
  {
    var init, last := log[..|log| - 1], log[|log| - 1];
    assert log == init + [last];
    SettlementsAppend(init, last, id);
    if Settlement(id, a) in init && Settlement(id, b) in init {
      OneOutcome(init, id, a, b);
    } else if Settlement(id, a) in init {
      SettledCounts(init, id, a);
    } else if Settlement(id, b) in init {
      SettledCounts(init, id, b);
    }
  }

  lemma SettledCounts(log: seq<Settlement>, id: RequestId, outcome: Outcome)
    requires Settlement(id, outcome) in log
    ensures Settlements(log, id) > 0
  {
    var i :| 0 <= i < |log| && log[i] == Settlement(id, outcome);
    assert SettledIds(log)[i] == id;
    CountedIsIn(SettledIds(log), id);
  }

  lemma {:induction false} FirstFate(first: Event, later: seq<Event>, id: RequestId)
    requires Verdict(first, id).Some?
    ensures Fate([first] + later, id) == Verdict(first, id)
  {
    if later == [] {
      assert [first] + later == [first] && [first][..0] == [];
    } else {
      var all := [first] + later;
      assert all[..|all| - 1] == [first] + later[..|later| - 1];
      FirstFate(first, later[..|later| - 1], id);
    }
  }

  /** A response with a code from 200 to 399 resolves the promise that waits for it, any other rejects it, whatever follows. */
  lemma ResponseDecides(s: State, id: RequestId, code: int, later: seq<Event>, outcome: Outcome)
    requires Sound(s) && id in s.pending
    ensures Settlement(id, outcome) in RunFrom(s, [Ctrl(id, code)] + later).log
       <==> outcome == if 200 <= code <= 399 then Resolved(code) else Refused(code)
  {
    var t := RunFrom(s, [Ctrl(id, code)] + later);
    FirstFateWins(s, [Ctrl(id, code)] + later, id);
    FirstFate(Ctrl(id, code), later, id);
    if Settlement(id, outcome) in t.log {
      OneOutcome(t.log, id, outcome, if 200 <= code <= 399 then Resolved(code) else Refused(code));
    }
  }

  /** A response nobody waits for, late, repeated or invented, changes nothing. */
  lemma LateResponse(events: seq<Event>, id: RequestId, code: int)
    ensures var s := RunFrom(START, events);
            Next(s, Ctrl(id, code)) == s <==> !(Issued(s, id) && Settlements(s.log, id) == 0)
  {
    EveryRunIsSound(events);
    var s := RunFrom(START, events);
    assert Accounted(s, id);
    CountedIsIn(s.pending, id);
    if id in s.pending {
      var k :| 1 <= k <= s.messageId && Decimal(k) == id;
      assert |Next(s, Ctrl(id, code)).log| == |s.log| + 1;
    }
  }
}
