/**
 Whole runs of the limiter: it answers like a limiter that forgets nothing, so every
 window of every run holds at most `limit` accepted requests.
 */
module RateLimitRuns {
  import opened Prelude
  import opened RateLimit

  datatype Call = Allow(key: Key, now: Time) | Remaining(key: Key, now: Time) | Reset(key: Key)
  datatype Answer = Verdict(ok: bool) | Left(n: int) | Done

  function Step(cfg: Config, st: State, call: Call): (State, Answer) {
    match call
    case Allow(key, now) => var (next, ok) := AllowStep(cfg, st, key, now); (next, Verdict(ok))
    case Remaining(key, now) => (st, Left(RemainingAt(cfg, st, key, now)))
    case Reset(key) => (ResetStep(st, key), Done)
  }

  function Run(cfg: Config, st: State, calls: seq<Call>): (r: (State, seq<Answer>))
    ensures |r.1| == |calls|
  {
    if calls == [] then (st, [])
    else
      var (before, answers) := Run(cfg, st, calls[..|calls| - 1]);
      var (next, answer) := Step(cfg, before, calls[|calls| - 1]);
      (next, answers + [answer])
  }

  // ---------------------------------------------------------------- the reference limiter

  /** Every accepted request since the key's last Reset; nothing is ever filtered. */
  type Log = map<Key, seq<Time>>

  function LogStep(cfg: Config, log: Log, call: Call): (Log, Answer) {
    match call
    case Allow(key, now) =>
      if |After(Get(log, key), now - cfg.window)| < cfg.limit
      then (log[key := Get(log, key) + [now]], Verdict(true)) else (log, Verdict(false))
    case Remaining(key, now) => (log, Left(Max(cfg.limit - |After(Get(log, key), now - cfg.window)|, 0)))
    case Reset(key) => (log - {key}, Done)
  }

  function LogRun(cfg: Config, calls: seq<Call>): (r: (Log, seq<Answer>))
    ensures |r.1| == |calls|
  {
    if calls == [] then (map[], [])
    else
      var (before, answers) := LogRun(cfg, calls[..|calls| - 1]);
      var (next, answer) := LogStep(cfg, before, calls[|calls| - 1]);
      (next, answers + [answer])
  }

  /** The times of the calls never decrease and never pass `until`. */
  ghost predicate Clocked(calls: seq<Call>, until: Time) {
    if calls == [] then true
    else
      var init, call := calls[..|calls| - 1], calls[|calls| - 1];
      if call.Reset? then Clocked(init, until) else call.now <= until && Clocked(init, call.now)
  }

  /** The latest time the run so far can have seen. */
  ghost function ClockAt(call: Call, until: Time): Time {
    if call.Reset? then until else call.now
  }

  // ---------------------------------------------------------------- refinement

  lemma {:induction false} AfterAfter(times: seq<Time>, a: Time, b: Time)
    requires a <= b
    ensures After(After(times, a), b) == After(times, b)
  {
    if times != [] {
      var init, last := times[..|times| - 1], times[|times| - 1];
      AfterAfter(init, a, b);
      if a < last {
        assert (After(init, a) + [last])[..|After(init, a)|] == After(init, a);
      }
    }
  }

  lemma AfterSnoc(times: seq<Time>, t: Time, cut: Time)
    ensures After(times + [t], cut) == if cut < t then After(times, cut) + [t] else After(times, cut)
  {
    assert (times + [t])[..|times|] == times;
  }

  ghost predicate SameAt(stored: seq<Time>, logged: seq<Time>, cut: Time) {
    After(stored, cut) == After(logged, cut)
  }

  /** What a stored list and a logged list have in common from `from` on. */
  ghost predicate SameAfter(stored: seq<Time>, logged: seq<Time>, from: Time) {
    forall cut :: from <= cut ==> SameAt(stored, logged, cut)
  }

  lemma SameAfterFilter(stored: seq<Time>, logged: seq<Time>, from: Time)
    requires SameAfter(stored, logged, from)
    ensures SameAfter(After(stored, from), logged, from)
  {
    forall cut | from <= cut ensures SameAt(After(stored, from), logged, cut) {
      AfterAfter(stored, from, cut);
      assert SameAt(stored, logged, cut);
    }
  }

  lemma SameAfterSnoc(stored: seq<Time>, logged: seq<Time>, from: Time, t: Time)
    requires SameAfter(stored, logged, from)
    ensures SameAfter(stored + [t], logged + [t], from)
  {
    forall cut | from <= cut ensures SameAt(stored + [t], logged + [t], cut) {
      AfterSnoc(stored, t, cut);
      AfterSnoc(logged, t, cut);
      assert SameAt(stored, logged, cut);
    }
  }

  lemma SameAfterLater(stored: seq<Time>, logged: seq<Time>, from: Time, later: Time)
    requires SameAfter(stored, logged, from) && from <= later
    ensures SameAfter(stored, logged, later)
  {
  }

  lemma SameAfterCleaned(cfg: Config, st: State, logged: seq<Time>, key: Key, now: Time)
    requires SameAfter(Get(st.requests, key), logged, now - cfg.window)
    ensures SameAfter(Get(CleanedState(cfg, st, now).requests, key), logged, now - cfg.window)
  {
    SameAfterFilter(Get(st.requests, key), logged, now - cfg.window);
  }

  /** One Allow, seen from its own key and from any other key. */
  lemma AllowGet(cfg: Config, st: State, called: Key, key: Key, now: Time)
    ensures
      var stored := Get(CleanedState(cfg, st, now).requests, key);
      var (next, ok) := AllowStep(cfg, st, called, now);
      if called != key then Get(next.requests, key) == stored
      else
        && ok == (|After(stored, now - cfg.window)| < cfg.limit)
        && Get(next.requests, key) == After(stored, now - cfg.window) + if ok then [now] else []
  {
  }

  lemma SameAfterAdmit(stored: seq<Time>, logged: seq<Time>, from: Time, added: seq<Time>)
    requires SameAfter(stored, logged, from) && |added| <= 1
    ensures |After(stored, from)| == |After(logged, from)|
    ensures SameAfter(After(stored, from) + added, logged + added, from)
  {
    assert SameAt(stored, logged, from);
    SameAfterFilter(stored, logged, from);
    if added == [] {
      assert After(stored, from) + [] == After(stored, from) && logged + [] == logged;
    } else {
      assert added == [added[0]];
      SameAfterSnoc(After(stored, from), logged, from, added[0]);
    }
  }

  lemma LogGet(cfg: Config, log: Log, called: Key, key: Key, now: Time)
    ensures
      var (next, answer) := LogStep(cfg, log, Allow(called, now));
      if called != key then Get(next, key) == Get(log, key)
      else
        && answer == Verdict(|After(Get(log, key), now - cfg.window)| < cfg.limit)
        && Get(next, key) == Get(log, key) + if answer.ok then [now] else []
  {
  }

  lemma SameAfterOwn(cfg: Config, st: State, log: Log, key: Key, now: Time, added: seq<Time>)
    requires SameAfter(Get(st.requests, key), Get(log, key), now - cfg.window)
    requires added == if AllowStep(cfg, st, key, now).1 then [now] else []
    ensures Verdict(AllowStep(cfg, st, key, now).1) == LogStep(cfg, log, Allow(key, now)).1
    ensures SameAfter(Get(AllowStep(cfg, st, key, now).0.requests, key),
                      Get(LogStep(cfg, log, Allow(key, now)).0, key), now - cfg.window)
  {
    SameAfterCleaned(cfg, st, Get(log, key), key, now);
    AllowGet(cfg, st, key, key, now);
    LogGet(cfg, log, key, key, now);
    SameAfterAdmit(Get(CleanedState(cfg, st, now).requests, key), Get(log, key), now - cfg.window, added);
  }

  lemma SameAfterAllow(cfg: Config, st: State, log: Log, called: Key, key: Key, now: Time)
    requires SameAfter(Get(st.requests, key), Get(log, key), now - cfg.window)
    ensures SameAfter(Get(AllowStep(cfg, st, called, now).0.requests, key),
                      Get(LogStep(cfg, log, Allow(called, now)).0, key), now - cfg.window)
    ensures called == key ==> Verdict(AllowStep(cfg, st, called, now).1) == LogStep(cfg, log, Allow(called, now)).1
  {
    if called == key {
      SameAfterOwn(cfg, st, log, key, now, if AllowStep(cfg, st, key, now).1 then [now] else []);
    } else {
      SameAfterCleaned(cfg, st, Get(log, key), key, now);
      AllowGet(cfg, st, called, key, now);
      LogGet(cfg, log, called, key, now);
    }
  }

  /** One call keeps what a key's stored list and its log have in common. */
  lemma SameAfterStep(cfg: Config, st: State, log: Log, call: Call, key: Key, now: Time)
    requires SameAfter(Get(st.requests, key), Get(log, key), now - cfg.window)
    requires call.Reset? || call.now == now
    ensures SameAfter(Get(Step(cfg, st, call).0.requests, key), Get(LogStep(cfg, log, call).0, key), now - cfg.window)
    ensures call.key == key ==> Step(cfg, st, call).1 == LogStep(cfg, log, call).1
  {
    match call
    case Allow(called, _) => SameAfterAllow(cfg, st, log, called, key, now);
    case Remaining(_, _) => assert SameAt(Get(st.requests, key), Get(log, key), now - cfg.window);
    case Reset(_) =>
  }

  lemma {:induction false} SameForKey(cfg: Config, start: Time, calls: seq<Call>, now: Time, key: Key)
    requires Clocked(calls, now)
    ensures SameAfter(Get(Run(cfg, State(map[], start), calls).0.requests, key), Get(LogRun(cfg, calls).0, key), now - cfg.window)
  {
    if calls != [] {
      var init, call := calls[..|calls| - 1], calls[|calls| - 1];
      var t := ClockAt(call, now);
      var st, log := Run(cfg, State(map[], start), init).0, LogRun(cfg, init).0;
      SameForKey(cfg, start, init, t, key);
      SameAfterStep(cfg, st, log, call, key, t);
      SameAfterLater(Get(Step(cfg, st, call).0.requests, key), Get(LogStep(cfg, log, call).0, key),
                     t - cfg.window, now - cfg.window);
    }
  }

  /** Filtering in place and sweeping other keys cannot be observed by any caller. */
  lemma {:induction false} AnswersLikeTheFullLog(cfg: Config, start: Time, calls: seq<Call>, now: Time)
    requires Clocked(calls, now)
    ensures Run(cfg, State(map[], start), calls).1 == LogRun(cfg, calls).1
  {
    if calls != [] {
      var init, call := calls[..|calls| - 1], calls[|calls| - 1];
      var t := ClockAt(call, now);
      AnswersLikeTheFullLog(cfg, start, init, t);
      SameForKey(cfg, start, init, t, call.key);
      SameAfterStep(cfg, Run(cfg, State(map[], start), init).0, LogRun(cfg, init).0, call, call.key, t);
    }
  }

  // ---------------------------------------------------------------- the bound on every window

  /** What one answered call adds to the accepted requests of a key. */
  function Noted(before: seq<Time>, call: Call, answer: Answer, key: Key): seq<Time> {
    match call
    case Allow(k, now) => if k == key && answer == Verdict(true) then before + [now] else before
    case Remaining(_, _) => before
    case Reset(k) => if k == key then [] else before
  }

  /** The accepted requests of a key since its last Reset, read off the answers of a run. */
  function Accepted(calls: seq<Call>, answers: seq<Answer>, key: Key): seq<Time>
    requires |calls| == |answers|
  {
    if calls == [] then []
    else
      var n := |calls| - 1;
      Noted(Accepted(calls[..n], answers[..n], key), calls[n], answers[n], key)
  }

  /** The accepted times in the interval (from, to]. */
  function Inside(times: seq<Time>, from: Time, to: Time): seq<Time> {
    if times == [] then []
    else
      var last := times[|times| - 1];
      var rest := Inside(times[..|times| - 1], from, to);
      if from < last <= to then rest + [last] else rest
  }

  /** In order, and no later than `until`. */
  ghost predicate Sorted(times: seq<Time>, until: Time) {
    times == [] || (times[|times| - 1] <= until && Sorted(times[..|times| - 1], times[|times| - 1]))
  }

  /** Each time was admitted while its own window had room. */
  ghost predicate Paced(cfg: Config, times: seq<Time>) {
    times == [] ||
    var init, last := times[..|times| - 1], times[|times| - 1];
    Paced(cfg, init) && |After(init, last - cfg.window)| < cfg.limit
  }

  lemma {:induction false} AfterShrinks(times: seq<Time>, a: Time, b: Time)
    requires a <= b
    ensures |After(times, b)| <= |After(times, a)|
  {
    if times != [] {
      AfterShrinks(times[..|times| - 1], a, b);
    }
  }

  lemma {:induction false} InsideIsAfter(times: seq<Time>, from: Time, until: Time, to: Time)
    requires Sorted(times, until) && until <= to
    ensures Inside(times, from, to) == After(times, from)
  {
    if times != [] {
      InsideIsAfter(times[..|times| - 1], from, times[|times| - 1], to);
    }
  }

  lemma PacedLast(cfg: Config, init: seq<Time>, last: Time, to: Time)
    requires Sorted(init, last) && last <= to
    requires |After(init, last - cfg.window)| < cfg.limit
    ensures |Inside(init, to - cfg.window, to)| < cfg.limit
  {
    InsideIsAfter(init, to - cfg.window, last, to);
    AfterShrinks(init, last - cfg.window, to - cfg.window);
  }

  lemma {:induction false} PacedWindow(cfg: Config, times: seq<Time>, until: Time, to: Time)
    requires Paced(cfg, times) && Sorted(times, until)
    ensures |Inside(times, to - cfg.window, to)| <= Max(cfg.limit, 0)
  {
    if times != [] {
      var init, last := times[..|times| - 1], times[|times| - 1];
      PacedWindow(cfg, init, last, to);
      if last <= to {
        PacedLast(cfg, init, last, to);
      }
    }
  }

  lemma {:induction false} SortedLater(times: seq<Time>, until: Time, later: Time)
    requires Sorted(times, until) && until <= later
    ensures Sorted(times, later)
  {
  }

  lemma LogNotes(cfg: Config, log: Log, call: Call, key: Key, t: Time, now: Time)
    requires Paced(cfg, Get(log, key)) && Sorted(Get(log, key), t) && t <= now && (!call.Reset? ==> call.now == t)
    ensures var (next, answer) := LogStep(cfg, log, call);
            && Get(next, key) == Noted(Get(log, key), call, answer, key)
            && Paced(cfg, Get(next, key)) && Sorted(Get(next, key), now)
  {
    var before := Get(log, key);
    assert (before + [t])[..|before|] == before;
    SortedLater(before, t, now);
  }

  lemma {:induction false} LogIsAccepted(cfg: Config, calls: seq<Call>, now: Time, key: Key)
    requires Clocked(calls, now)
    ensures Get(LogRun(cfg, calls).0, key) == Accepted(calls, LogRun(cfg, calls).1, key)
    ensures Paced(cfg, Get(LogRun(cfg, calls).0, key))
    ensures Sorted(Get(LogRun(cfg, calls).0, key), now)
  {
    if calls != [] {
      var init, call := calls[..|calls| - 1], calls[|calls| - 1];
      var t := ClockAt(call, now);
      LogIsAccepted(cfg, init, t, key);
      assert LogRun(cfg, calls).1[..|init|] == LogRun(cfg, init).1;
      LogNotes(cfg, LogRun(cfg, init).0, call, key, t, now);
    }
  }

  /** No window of length `cfg.window`, wherever it ends, holds more than `limit` accepted requests. */
  lemma WindowBound(cfg: Config, start: Time, calls: seq<Call>, now: Time, key: Key, to: Time)
    requires Clocked(calls, now)
    ensures |Inside(Accepted(calls, Run(cfg, State(map[], start), calls).1, key), to - cfg.window, to)| <= Max(cfg.limit, 0)
  {
    AnswersLikeTheFullLog(cfg, start, calls, now);
    LogIsAccepted(cfg, calls, now, key);
    PacedWindow(cfg, Get(LogRun(cfg, calls).0, key), now, to);
  }

  lemma LogRefuses(cfg: Config, log: Log, key: Key, now: Time)
    requires Paced(cfg, Get(log, key)) && Sorted(Get(log, key), now)
    ensures LogStep(cfg, log, Allow(key, now)).1 == Verdict(false) <==>
            |Inside(Get(log, key), now - cfg.window, now)| == Max(cfg.limit, 0)
  {
    PacedWindow(cfg, Get(log, key), now, now);
    InsideIsAfter(Get(log, key), now - cfg.window, now, now);
  }

  /** A request is refused exactly when the window that ends with it is already full. */
  lemma RefusedOnlyWhenFull(cfg: Config, start: Time, calls: seq<Call>, key: Key, now: Time)
    requires Clocked(calls, now)
    ensures !AllowStep(cfg, Run(cfg, State(map[], start), calls).0, key, now).1 <==>
            |Inside(Accepted(calls, Run(cfg, State(map[], start), calls).1, key), now - cfg.window, now)| == Max(cfg.limit, 0)
  {
    AnswersLikeTheFullLog(cfg, start, calls, now);
    LogIsAccepted(cfg, calls, now, key);
    SameForKey(cfg, start, calls, now, key);
    SameAfterStep(cfg, Run(cfg, State(map[], start), calls).0, LogRun(cfg, calls).0, Allow(key, now), key, now);
    LogRefuses(cfg, LogRun(cfg, calls).0, key, now);
  }

  // ---------------------------------------------------------------- the stored lists

  ghost predicate TidyList(cfg: Config, times: seq<Time>, now: Time) {
    Sorted(times, now) && |times| <= Max(cfg.limit, 0)
  }

  ghost predicate Tidy(cfg: Config, st: State, now: Time) {
    forall key :: key in st.requests ==> TidyList(cfg, st.requests[key], now)
  }

  lemma {:induction false} AfterSorted(times: seq<Time>, until: Time, cut: Time)
    requires Sorted(times, until)
    ensures Sorted(After(times, cut), until)
  {
    if times != [] {
      var init, last := times[..|times| - 1], times[|times| - 1];
      AfterSorted(init, last, cut);
      SortedLater(After(init, cut), last, until);
      assert (After(init, cut) + [last])[..|After(init, cut)|] == After(init, cut);
    }
  }

  lemma TidyCleaned(cfg: Config, st: State, now: Time)
    requires Tidy(cfg, st, now)
    ensures Tidy(cfg, CleanedState(cfg, st, now), now)
  {
    forall key | key in st.requests ensures TidyList(cfg, After(st.requests[key], now - cfg.window), now) {
      AfterSorted(st.requests[key], now, now - cfg.window);
    }
  }

  lemma TidyAdmitted(cfg: Config, requests: map<Key, seq<Time>>, called: Key, now: Time, key: Key)
    requires key in Admit(cfg, requests, called, now).0
    requires forall k :: k in requests ==> TidyList(cfg, requests[k], now)
    ensures TidyList(cfg, Admit(cfg, requests, called, now).0[key], now)
  {
    var valid := After(Get(requests, called), now - cfg.window);
    AfterSorted(Get(requests, called), now, now - cfg.window);
    assert (valid + [now])[..|valid|] == valid;
  }

  lemma TidyStep(cfg: Config, st: State, call: Call, now: Time)
    requires Tidy(cfg, st, now) && (call.Reset? || call.now == now)
    ensures Tidy(cfg, Step(cfg, st, call).0, now)
  {
    if call.Allow? {
      var cleaned := CleanedState(cfg, st, now);
      TidyCleaned(cfg, st, now);
      forall key | key in Admit(cfg, cleaned.requests, call.key, now).0
        ensures TidyList(cfg, Admit(cfg, cleaned.requests, call.key, now).0[key], now)
      {
        TidyAdmitted(cfg, cleaned.requests, call.key, now, key);
      }
    }
  }

  /** Every stored list stays in order and never grows past the limit. */
  lemma {:induction false} StoredListsStayShort(cfg: Config, start: Time, calls: seq<Call>, now: Time)
    requires Clocked(calls, now)
    ensures Tidy(cfg, Run(cfg, State(map[], start), calls).0, now)
  {
    if calls != [] {
      var init, call := calls[..|calls| - 1], calls[|calls| - 1];
      var t := ClockAt(call, now);
      StoredListsStayShort(cfg, start, init, t);
      TidyStep(cfg, Run(cfg, State(map[], start), init).0, call, t);
      var st := Run(cfg, State(map[], start), calls).0;
      forall key | key in st.requests ensures TidyList(cfg, st.requests[key], now) {
        SortedLater(st.requests[key], t, now);
      }
    }
  }

  // ---------------------------------------------------------------- what is left, and what is forgotten

  /** Remaining answers how many requests of the window that ends now are still free. */
  lemma RemainingTells(cfg: Config, start: Time, calls: seq<Call>, key: Key, now: Time)
    requires Clocked(calls, now)
    ensures
      var accepted := Accepted(calls, Run(cfg, State(map[], start), calls).1, key);
      var used := |Inside(accepted, now - cfg.window, now)|;
      RemainingAt(cfg, Run(cfg, State(map[], start), calls).0, key, now) == if used < cfg.limit then cfg.limit - used else 0
  {
    AnswersLikeTheFullLog(cfg, start, calls, now);
    LogIsAccepted(cfg, calls, now, key);
    SameForKey(cfg, start, calls, now, key);
    SameAfterStep(cfg, Run(cfg, State(map[], start), calls).0, LogRun(cfg, calls).0, Remaining(key, now), key, now);
    InsideIsAfter(Get(LogRun(cfg, calls).0, key), now - cfg.window, now, now);
  }

  /** Nothing in the list is as old as a window before `from`. */
  ghost predicate NoneBefore(times: seq<Time>, from: Time) {
    forall t :: t in times ==> from <= t
  }

  ghost predicate Fresh(cfg: Config, st: State, now: Time) {
    && st.lastCleanup <= now
    && forall key :: key in st.requests ==> NoneBefore(st.requests[key], st.lastCleanup - cfg.window)
  }

  lemma {:induction false} AfterIsLater(times: seq<Time>, cut: Time, t: Time)
    ensures t in After(times, cut) <==> t in times && cut < t
  {
    if times != [] {
      var init, last := times[..|times| - 1], times[|times| - 1];
      AfterIsLater(init, cut, t);
      assert times == init + [last];
    }
  }

  lemma FreshCleaned(cfg: Config, st: State, now: Time)
    requires Fresh(cfg, st, now) && cfg.window >= 0
    ensures var cleaned := CleanedState(cfg, st, now);
            Fresh(cfg, cleaned, now) && now - cleaned.lastCleanup <= Max(cfg.cleanupInterval, 0)
  {
    var cleaned := CleanedState(cfg, st, now);
    forall key | key in cleaned.requests ensures NoneBefore(cleaned.requests[key], cleaned.lastCleanup - cfg.window) {
      assert NoneBefore(st.requests[key], st.lastCleanup - cfg.window);
      var times := After(st.requests[key], now - cfg.window);
      forall t | t in times ensures now - cfg.window <= t {
        AfterIsLater(st.requests[key], now - cfg.window, t);
      }
    }
  }

  lemma FreshAdmitted(cfg: Config, st: State, called: Key, now: Time)
    requires Fresh(cfg, st, now) && cfg.window >= 0
    ensures Fresh(cfg, State(Admit(cfg, st.requests, called, now).0, st.lastCleanup), now)
  {
    var after := Admit(cfg, st.requests, called, now).0;
    forall key | key in after ensures NoneBefore(after[key], st.lastCleanup - cfg.window) {
      if key == called {
        forall t | t in after[key] ensures st.lastCleanup - cfg.window <= t {
          AfterIsLater(Get(st.requests, called), now - cfg.window, t);
        }
      } else {
        assert NoneBefore(st.requests[key], st.lastCleanup - cfg.window);
      }
    }
  }

  lemma FreshStep(cfg: Config, st: State, call: Call, now: Time)
    requires Fresh(cfg, st, now) && cfg.window >= 0 && (call.Reset? || call.now == now)
    ensures var next := Step(cfg, st, call).0;
            Fresh(cfg, next, now) && (call.Allow? ==> now - next.lastCleanup <= Max(cfg.cleanupInterval, 0))
  {
    if call.Allow? {
      FreshCleaned(cfg, st, now);
      FreshAdmitted(cfg, CleanedState(cfg, st, now), call.key, now);
    }
  }

  /** The clock of the calls does not start before the limiter. */
  predicate StartsAt(calls: seq<Call>, start: Time) {
    forall call :: call in calls ==> call.Reset? || start <= call.now
  }

  lemma {:induction false} AlwaysFresh(cfg: Config, start: Time, calls: seq<Call>, now: Time)
    requires cfg.window >= 0 && Clocked(calls, now) && StartsAt(calls, start) && start <= now
    ensures Fresh(cfg, Run(cfg, State(map[], start), calls).0, now)
  {
    if calls != [] {
      var init, call := calls[..|calls| - 1], calls[|calls| - 1];
      assert call in calls && forall c :: c in init ==> c in calls;
      AlwaysFresh(cfg, start, init, ClockAt(call, now));
      FreshStep(cfg, Run(cfg, State(map[], start), init).0, call, ClockAt(call, now));
    }
  }

  /** Right after a request the limiter holds nothing older than a window and a cleanup interval, of any key. */
  lemma NothingOldIsKept(cfg: Config, start: Time, calls: seq<Call>, called: Key, now: Time, key: Key, t: Time)
    requires cfg.window >= 0 && cfg.cleanupInterval >= 0 && Clocked(calls, now) && StartsAt(calls, start) && start <= now
    requires t in Get(AllowStep(cfg, Run(cfg, State(map[], start), calls).0, called, now).0.requests, key)
    ensures now - cfg.cleanupInterval - cfg.window <= t
  {
    AlwaysFresh(cfg, start, calls, now);
    var st := Run(cfg, State(map[], start), calls).0;
    FreshStep(cfg, st, Allow(called, now), now);
    var next := Step(cfg, st, Allow(called, now)).0;
    assert NoneBefore(next.requests[key], next.lastCleanup - cfg.window);
  }

  lemma NoneEmptyStep(cfg: Config, st: State, call: Call, key: Key)
    requires cfg.limit >= 1 && (key in st.requests ==> st.requests[key] != [])
    ensures var next := Step(cfg, st, call).0; key in next.requests ==> next.requests[key] != []
  {
  }

  lemma {:induction false} NoneEmpty(cfg: Config, start: Time, calls: seq<Call>, key: Key)
    requires cfg.limit >= 1
    ensures var st := Run(cfg, State(map[], start), calls).0; key in st.requests ==> st.requests[key] != []
  {
    if calls != [] {
      var init := calls[..|calls| - 1];
      NoneEmpty(cfg, start, init, key);
      NoneEmptyStep(cfg, Run(cfg, State(map[], start), init).0, calls[|calls| - 1], key);
    }
  }

  /** A key that has been idle for longer than that is not in the table any more. */
  lemma IdleKeysGo(cfg: Config, start: Time, calls: seq<Call>, called: Key, now: Time, key: Key)
    requires cfg.limit >= 1 && cfg.window >= 0 && cfg.cleanupInterval >= 0
    requires Clocked(calls, now) && StartsAt(calls, start) && start <= now
    requires key in AllowStep(cfg, Run(cfg, State(map[], start), calls).0, called, now).0.requests
    ensures exists t :: t in Get(AllowStep(cfg, Run(cfg, State(map[], start), calls).0, called, now).0.requests, key)
                     && now - cfg.cleanupInterval - cfg.window <= t
  {
    var st := Run(cfg, State(map[], start), calls).0;
    NoneEmpty(cfg, start, calls, key);
    NoneEmptyStep(cfg, st, Allow(called, now), key);
    var times := Get(AllowStep(cfg, st, called, now).0.requests, key);
    assert times == Step(cfg, st, Allow(called, now)).0.requests[key];
    assert times[0] in times;
    NothingOldIsKept(cfg, start, calls, called, now, key, times[0]);
  }
}
