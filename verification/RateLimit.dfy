/**
 The sliding-window limiter of ratelimit/ratelimit.go.

 `State` and its step functions say what a call does to the stored lists.  The class
 `Limiter` does the same work on slices that share backing arrays, compacting in place.
 The reference limiter at the end never forgets an accepted request.
 */
module RateLimit {
  import opened Prelude

  type Key = string
  type Time = int  // nanoseconds of a clock that does not run backwards

  datatype Config = Config(limit: int, window: Time, cleanupInterval: Time)

  datatype State = State(requests: map<Key, seq<Time>>, lastCleanup: Time)

  /** A key that is not in the map reads as a nil slice. */
  function Get(requests: map<Key, seq<Time>>, key: Key): seq<Time> {
    if key in requests then requests[key] else []
  }

  /** The times strictly later than `cut`, in order. */
  function After(times: seq<Time>, cut: Time): (r: seq<Time>)
    ensures |r| <= |times|
  {
    if times == [] then []
    else
      var last := times[|times| - 1];
      var rest := After(times[..|times| - 1], cut);
      if cut < last then rest + [last] else rest
  }

  function Swept(requests: map<Key, seq<Time>>, cut: Time): map<Key, seq<Time>> {
    map key | key in requests && After(requests[key], cut) != [] :: After(requests[key], cut)
  }

  // ---------------------------------------------------------------- sweeping key by key

  function SweptKey(requests: map<Key, seq<Time>>, key: Key, cut: Time): map<Key, seq<Time>>
    requires key in requests
  {
    if After(requests[key], cut) == [] then requests - {key} else requests[key := After(requests[key], cut)]
  }

  /** The keys outside `todo` have been swept, the others have not been touched. */
  ghost predicate PartlySwept(was: map<Key, seq<Time>>, now: map<Key, seq<Time>>, todo: set<Key>, cut: Time) {
    && todo <= was.Keys
    && now.Keys <= was.Keys
    && forall key :: key in was ==>
         if key in todo then key in now && now[key] == was[key]
         else if After(was[key], cut) == [] then key !in now
         else key in now && now[key] == After(was[key], cut)
  }

  lemma PartlySweptStep(was: map<Key, seq<Time>>, now: map<Key, seq<Time>>, todo: set<Key>, key: Key, cut: Time)
    requires PartlySwept(was, now, todo, cut) && key in todo
    ensures key in now
    ensures PartlySwept(was, SweptKey(now, key, cut), todo - {key}, cut)
    ensures todo - {key} <= SweptKey(now, key, cut).Keys
  {
  }

  lemma PartlySweptEnd(was: map<Key, seq<Time>>, now: map<Key, seq<Time>>, cut: Time)
    requires PartlySwept(was, now, {}, cut)
    ensures now == Swept(was, cut)
  {
  }

  // ---------------------------------------------------------------- one call

  /** The part of Allow after the periodic cleanup. */
  function Admit(cfg: Config, requests: map<Key, seq<Time>>, key: Key, now: Time): (map<Key, seq<Time>>, bool) {
    var valid := After(Get(requests, key), now - cfg.window);
    if |valid| >= cfg.limit then (requests[key := valid], false) else (requests[key := valid + [now]], true)
  }

  lemma UpdatedTwice(m: map<Key, seq<Time>>, key: Key, times: seq<Time>, now: Time)
    ensures m[key := times][key := m[key := times][key] + [now]] == m[key := times + [now]]
  {
  }

  function CleanedState(cfg: Config, st: State, now: Time): State {
    if now - st.lastCleanup > cfg.cleanupInterval then State(Swept(st.requests, now - cfg.window), now) else st
  }

  function AllowStep(cfg: Config, st: State, key: Key, now: Time): (State, bool) {
    var cleaned := CleanedState(cfg, st, now);
    var (requests, ok) := Admit(cfg, cleaned.requests, key, now);
    (State(requests, cleaned.lastCleanup), ok)
  }

  /** A call put together from its two parts. */
  lemma AllowIs(cfg: Config, st: State, key: Key, now: Time, cleaned: map<Key, seq<Time>>, lastCleanup: Time,
                requests: map<Key, seq<Time>>, ok: bool)
    requires lastCleanup == if now - st.lastCleanup > cfg.cleanupInterval then now else st.lastCleanup
    requires cleaned == if now - st.lastCleanup > cfg.cleanupInterval then Swept(st.requests, now - cfg.window) else st.requests
    requires (requests, ok) == Admit(cfg, cleaned, key, now)
    ensures (State(requests, lastCleanup), ok) == AllowStep(cfg, st, key, now)
  {
  }

  function RemainingAt(cfg: Config, st: State, key: Key, now: Time): int {
    Max(cfg.limit - |After(Get(st.requests, key), now - cfg.window)|, 0)
  }

  function ResetStep(st: State, key: Key): State {
    st.(requests := st.requests - {key})
  }

  // ---------------------------------------------------------------- the limiter in place

  /** A Go slice header: the first `len` cells of a backing array. */
  datatype Slice = Slice(cells: array<Time>, len: nat)

  /** `valid := times[:0]` followed by the filtering loop: both slices use the same cells. */
  method Compact(times: Slice, cut: Time) returns (kept: nat)
    requires times.len <= times.cells.Length
    modifies times.cells
    ensures kept <= times.len
    ensures times.cells[..kept] == After(old(times.cells[..times.len]), cut)
  {
    ghost var was := times.cells[..times.len];
    kept := 0;
    for i := 0 to times.len
      invariant kept <= i
      invariant times.cells[..kept] == After(was[..i], cut)
      invariant times.cells[i..times.len] == was[i..]
    {
      assert was[..i + 1][..i] == was[..i];
      assert times.cells[i] == was[i] by { assert times.cells[i..times.len][0] == was[i..][0]; }
      ghost var rest := times.cells[i + 1..times.len];
      assert rest == was[i + 1..] by { assert rest == times.cells[i..times.len][1..]; }
      if cut < times.cells[i] {
        times.cells[kept] := times.cells[i];
        kept := kept + 1;
        assert times.cells[..kept] == After(was[..i], cut) + [was[i]];
      }
    }
    assert was[..times.len] == was;
  }

  /** Go's append: in place while there is capacity, otherwise into a larger array. */
  method Append(times: Slice, t: Time) returns (grown: Slice)
    requires times.len <= times.cells.Length
    modifies times.cells
    ensures grown.len == times.len + 1 <= grown.cells.Length
    ensures grown.cells == times.cells || fresh(grown.cells)
    ensures grown.cells[..grown.len] == old(times.cells[..times.len]) + [t]
  {
    var cells := times.cells;
    if times.len == cells.Length {
      cells := new Time[2 * times.len + 1];
      for i := 0 to times.len
        invariant cells[..i] == times.cells[..i]
        invariant times.cells[..] == old(times.cells[..])
        modifies cells
      {
        cells[i] := times.cells[i];
      }
    }
    cells[times.len] := t;
    grown := Slice(cells, times.len + 1);
  }

  class Limiter {
    const cfg: Config
    var requests: map<Key, Slice>
    var lastCleanup: Time
    ghost var stored: map<Key, seq<Time>>   // the lists the slices hold
    ghost var owner: map<array<Time>, Key>  // which key a backing array was made for

    /** Every slice fits its array, and no two keys share one. */
    ghost predicate Valid()
      reads this`requests, this`stored, this`owner, owner.Keys
    {
      && stored.Keys == requests.Keys
      && forall key :: key in requests ==>
           && requests[key].len <= requests[key].cells.Length
           && requests[key].cells in owner
           && owner[requests[key].cells] == key
           && requests[key].cells[..requests[key].len] == stored[key]
    }

    ghost function Model(): State
      reads this
    {
      State(stored, lastCleanup)
    }

    constructor (cfg: Config, now: Time)
      ensures Valid() && Model() == State(map[], now)
      ensures this.cfg == if cfg.cleanupInterval == 0 then cfg.(cleanupInterval := cfg.window * 10) else cfg
    {
      this.cfg := if cfg.cleanupInterval == 0 then cfg.(cleanupInterval := cfg.window * 10) else cfg;
      requests := map[];
      lastCleanup := now;
      stored, owner := map[], map[];
    }

    /** Filters one stored list in place; a key without one gets a nil slice. */
    method Filter(key: Key, cut: Time) returns (kept: nat)
      requires Valid()
      modifies this`requests, this`stored, this`owner, owner.Keys
      ensures Valid() && fresh(owner.Keys - old(owner.Keys))
      ensures old(key in requests) ==> owner == old(owner)
      ensures stored == old(stored)[key := After(Get(old(stored), key), cut)]
      ensures kept == |stored[key]|
    {
      var times: Slice;
      if key in requests {
        times := requests[key];
      } else {
        var none := new Time[0];
        times := Slice(none, 0);
        owner := owner[none := key];
      }
      kept := Compact(times, cut);
      requests := requests[key := times.(len := kept)];
      stored := stored[key := After(Get(stored, key), cut)];
    }

    method Delete(key: Key)
      requires Valid()
      modifies this`requests, this`stored
      ensures Valid()
      ensures stored == old(stored) - {key}
    {
      requests := requests - {key};
      stored := stored - {key};
    }

    method Record(key: Key, now: Time)
      requires Valid() && key in stored
      modifies this`requests, this`stored, this`owner, owner.Keys
      ensures Valid() && fresh(owner.Keys - old(owner.Keys))
      ensures stored == old(stored)[key := old(stored)[key] + [now]]
    {
      var grown := Append(requests[key], now);
      owner := owner[grown.cells := key];
      requests := requests[key := grown];
      stored := stored[key := stored[key] + [now]];
    }

    method SweepKey(key: Key, cut: Time)
      requires Valid() && key in stored
      modifies this`requests, this`stored, this`owner, owner.Keys
      ensures Valid() && owner == old(owner)
      ensures stored == SweptKey(old(stored), key, cut)
    {
      var kept := Filter(key, cut);
      if kept == 0 {
        Delete(key);
      }
    }

    /** The map is swept one key at a time, in any order. */
    method Cleanup(cut: Time)
      requires Valid()
      modifies this`requests, this`stored, this`owner, owner.Keys
      ensures Valid() && owner == old(owner)
      ensures stored == Swept(old(stored), cut)
    {
      ghost var was := stored;
      var todo := requests.Keys;
      while todo != {}
        invariant Valid() && owner == old(owner)
        invariant todo <= stored.Keys
        invariant PartlySwept(was, stored, todo, cut)
        decreases |todo|
      {
        var key :| key in todo;
        PartlySweptStep(was, stored, todo, key, cut);
        SweepKey(key, cut);
        todo := todo - {key};
      }
      PartlySweptEnd(was, stored, cut);
    }

    method AdmitInPlace(key: Key, now: Time) returns (ok: bool)
      requires Valid()
      modifies this`requests, this`stored, this`owner, owner.Keys
      ensures Valid() && fresh(owner.Keys - old(owner.Keys))
      ensures (stored, ok) == Admit(cfg, old(stored), key, now)
    {
      ghost var was := stored;
      var kept := Filter(key, now - cfg.window);
      ok := kept < cfg.limit;
      if ok {
        Record(key, now);
        UpdatedTwice(was, key, After(Get(was, key), now - cfg.window), now);
      }
    }

    method CleanupWhenDue(now: Time)
      requires Valid()
      modifies this`requests, this`stored, this`owner, this`lastCleanup, owner.Keys
      ensures Valid() && owner == old(owner)
      ensures var due := now - old(lastCleanup) > cfg.cleanupInterval;
              && lastCleanup == (if due then now else old(lastCleanup))
              && stored == (if due then Swept(old(stored), now - cfg.window) else old(stored))
    {
      if now - lastCleanup > cfg.cleanupInterval {
        Cleanup(now - cfg.window);
        lastCleanup := now;
      }
    }

    /** Both parts of Allow, under one lock. */
    method CleanAndAdmit(key: Key, now: Time) returns (ok: bool, ghost cleaned: map<Key, seq<Time>>)
      requires Valid()
      modifies this`requests, this`stored, this`owner, this`lastCleanup, owner.Keys
      ensures Valid() && fresh(owner.Keys - old(owner.Keys))
      ensures var due := now - old(lastCleanup) > cfg.cleanupInterval;
              && lastCleanup == (if due then now else old(lastCleanup))
              && cleaned == (if due then Swept(old(stored), now - cfg.window) else old(stored))
      ensures (stored, ok) == Admit(cfg, cleaned, key, now)
    {
      CleanupWhenDue(now);
      cleaned := stored;
      ok := AdmitInPlace(key, now);
    }

    method Allow(key: Key, now: Time) returns (ok: bool)
      requires Valid()
      modifies this`requests, this`stored, this`owner, this`lastCleanup, owner.Keys
      ensures Valid() && fresh(owner.Keys - old(owner.Keys))
      ensures (Model(), ok) == AllowStep(cfg, old(Model()), key, now)
    {
      ghost var was := Model();
      ghost var cleaned;
      ok, cleaned := CleanAndAdmit(key, now);
      AllowIs(cfg, was, key, now, cleaned, lastCleanup, stored, ok);
    }

    method Remaining(key: Key, now: Time) returns (left: int)
      requires Valid()
      ensures left == RemainingAt(cfg, Model(), key, now)
    {
      var cut := now - cfg.window;
      var count := 0;
      if key in requests {
        var times := requests[key];
        for i := 0 to times.len
          invariant count == |After(times.cells[..i], cut)|
        {
          assert times.cells[..i + 1][..i] == times.cells[..i];
          if cut < times.cells[i] {
            count := count + 1;
          }
        }
      }
      left := cfg.limit - count;
      if left < 0 {
        return 0;
      }
    }

    method Reset(key: Key)
      requires Valid()
      modifies this`requests, this`stored
      ensures Valid() && Model() == ResetStep(old(Model()), key)
    {
      Delete(key);
    }
  }
}
