/**
 Scrolling back through a conversation: each fetch asks for what lies before the smallest
 number of the page before it, and the walk ends at the first page that is not full.  Between
 any two fetches the tables go on changing.
 */
module HistoryWalk {
  import opened Heads
  import opened Messages
  import opened MessageRuns

  /** A fetch made once `at` changes have happened, with its cursor (0 for none) and the clear_seq that was read for it. */
  datatype Fetch = Fetch(at: nat, clear: int, before: int, page: seq<int>)

  datatype Reader = Reader(conv: ConvId, user: User, limit: int)

  /** The smallest number of the last page; 0 asks for the newest messages. */
  function Cursor(walk: seq<Fetch>): int {
    if walk == [] || walk[|walk| - 1].page == [] then 0
    else walk[|walk| - 1].page[|walk[|walk| - 1].page| - 1]
  }

  ghost predicate Full(r: Reader, fetch: Fetch) {
    |fetch.page| == Clamp(r.limit)
  }

  /** Fetches one after the other, with any cursors. */
  ghost predicate IsWalk(changes: seq<Change>, r: Reader, walk: seq<Fetch>) {
    walk == [] ||
    var init, last := walk[..|walk| - 1], walk[|walk| - 1];
    && IsWalk(changes, r, init)
    && (init != [] ==> init[|init| - 1].at <= last.at)
    && last.at <= |changes|
    && IsPage(State(changes[..last.at]), r.conv, r.user, last.before, last.clear, Clamp(r.limit), last.page)
  }

  /** Each fetch goes on where the page before it, a full one, ended. */
  ghost predicate Straight(r: Reader, walk: seq<Fetch>) {
    walk == [] ||
    var init, last := walk[..|walk| - 1], walk[|walk| - 1];
    && Straight(r, init)
    && last.before == Cursor(init)
    && (init != [] ==> Full(r, init[|init| - 1]))
  }

  /** No fetch leaves anything out below the page before it; it may go over some of that page again. */
  ghost predicate Gapless(r: Reader, walk: seq<Fetch>) {
    walk == [] ||
    var init, last := walk[..|walk| - 1], walk[|walk| - 1];
    && Gapless(r, init)
    && (init != [] ==> last.before > 0 && (Full(r, init[|init| - 1]) ==> Cursor(init) <= last.before))
  }

  /** Everything the walk has returned, in the order of its return. */
  function Returned(walk: seq<Fetch>): seq<int> {
    if walk == [] then [] else Returned(walk[..|walk| - 1]) + walk[|walk| - 1].page
  }

  /** The message can be seen by the reader at the time of this fetch. */
  ghost predicate VisibleAt(changes: seq<Change>, r: Reader, fetch: Fetch, n: int)
    requires fetch.at <= |changes|
  {
    Selected(State(changes[..fetch.at]), r.conv, r.user, 0, fetch.clear, n)
  }

  /** The last fetch in whose stretch of the history `n` lies. */
  function Decider(walk: seq<Fetch>, n: int): (i: nat)
    requires walk != []
    ensures i < |walk|
  {
    if |walk| == 1 || n < walk[|walk| - 1].before then |walk| - 1 else Decider(walk[..|walk| - 1], n)
  }

  /** That fetch has returned it. */
  predicate Shows(walk: seq<Fetch>, n: int) {
    walk != [] && n in walk[Decider(walk, n)].page
  }

  // ---------------------------------------------------------------- order

  lemma DescendingConcat(a: seq<int>, b: seq<int>)
    requires Descending(a) && Descending(b)
    requires a != [] && b != [] ==> b[0] < a[|a| - 1]
    ensures Descending(a + b)
  {
    forall i | 0 <= i < |a + b| - 1 ensures (a + b)[i] > (a + b)[i + 1] {
      if i < |a| - 1 {
        assert a[i] > a[i + 1];
      } else if i >= |a| {
        assert b[i - |a|] > b[i - |a| + 1];
      }
    }
  }

  lemma DescendingLeast(a: seq<int>, n: int)
    requires Descending(a) && n in a
    ensures a[|a| - 1] <= n
  {
    var i :| 0 <= i < |a| && a[i] == n;
    if i < |a| - 1 {
      DescendingPair(a, i, |a| - 1);
    }
  }

  ghost predicate IsFetch(changes: seq<Change>, r: Reader, fetch: Fetch) {
    fetch.at <= |changes|
    && IsPage(State(changes[..fetch.at]), r.conv, r.user, fetch.before, fetch.clear, Clamp(r.limit), fetch.page)
  }

  /** Page numbers are at least 1, so a cursor is never the 0 that would lift the bound. */
  lemma PageNumbers(changes: seq<Change>, r: Reader, fetch: Fetch, n: int)
    requires IsFetch(changes, r, fetch) && n in fetch.page
    ensures 1 <= n && (fetch.before > 0 ==> n < fetch.before) && VisibleAt(changes, r, fetch, n)
    ensures r.conv in State(changes[..fetch.at]).convs && n <= State(changes[..fetch.at]).convs[r.conv].lastSeq
  {
    Reachable(changes[..fetch.at]);
    assert Selected(State(changes[..fetch.at]), r.conv, r.user, fetch.before, fetch.clear, n);
    assert Numbered(State(changes[..fetch.at]), (r.conv, n));
  }

  lemma PageEnds(changes: seq<Change>, r: Reader, fetch: Fetch)
    requires IsFetch(changes, r, fetch)
    ensures fetch.page != [] ==> 1 <= fetch.page[|fetch.page| - 1] && (fetch.before > 0 ==> fetch.page[0] < fetch.before)
  {
    if fetch.page != [] {
      PageNumbers(changes, r, fetch, fetch.page[0]);
      PageNumbers(changes, r, fetch, fetch.page[|fetch.page| - 1]);
    }
  }

  /** In a straight walk the numbers come back in strictly descending order, so none comes back twice. */
  lemma {:induction false} WalkDescends(changes: seq<Change>, r: Reader, walk: seq<Fetch>)
    requires IsWalk(changes, r, walk) && Straight(r, walk)
    ensures Descending(Returned(walk))
    ensures walk != [] && walk[|walk| - 1].page != [] ==>
              Returned(walk) != [] && Returned(walk)[|Returned(walk)| - 1] == Cursor(walk) >= 1
  {
    if walk != [] {
      var init, last := walk[..|walk| - 1], walk[|walk| - 1];
      WalkDescends(changes, r, init);
      PageEnds(changes, r, last);
      if init == [] {
        assert Returned(walk) == last.page;
      } else {
        assert Returned(init) != [];
        DescendingConcat(Returned(init), last.page);
      }
    }
  }

  // ---------------------------------------------------------------- tiling

  /** One page against its own stretch of the history. */
  lemma PageDecides(changes: seq<Change>, r: Reader, fetch: Fetch, n: int)
    requires IsFetch(changes, r, fetch)
    requires fetch.before > 0 ==> n < fetch.before
    requires Full(r, fetch) ==> fetch.page[|fetch.page| - 1] <= n
    ensures n in fetch.page <==> VisibleAt(changes, r, fetch, n)
  {
    var t := State(changes[..fetch.at]);
    assert VisibleAt(changes, r, fetch, n) <==> Selected(t, r.conv, r.user, fetch.before, fetch.clear, n);
  }

  /**
   The fetches of a walk without gaps tile the history.  Down to its cursor, and all the way down
   once a page was not full, the fetch that decides on a number has returned it if and only if
   the message was visible then.
   */
  lemma {:induction false} WalkTiles(changes: seq<Change>, r: Reader, walk: seq<Fetch>, n: int)
    requires IsWalk(changes, r, walk) && Gapless(r, walk) && walk != []
    requires walk[0].before > 0 ==> n < walk[0].before
    requires Full(r, walk[|walk| - 1]) ==> Cursor(walk) <= n
    ensures walk[Decider(walk, n)].at <= |changes|
    ensures Shows(walk, n) <==> VisibleAt(changes, r, walk[Decider(walk, n)], n)
  {
    var init, last := walk[..|walk| - 1], walk[|walk| - 1];
    if init == [] || n < last.before {
      PageDecides(changes, r, last, n);
    } else {
      WalkTiles(changes, r, init, n);
    }
  }

  lemma {:induction false} StraightIsGapless(changes: seq<Change>, r: Reader, walk: seq<Fetch>)
    requires IsWalk(changes, r, walk) && Straight(r, walk)
    ensures Gapless(r, walk) && (walk != [] ==> walk[0].before == 0)
  {
    if walk != [] {
      StraightIsGapless(changes, r, walk[..|walk| - 1]);
      WalkDescends(changes, r, walk[..|walk| - 1]);
    }
  }

  lemma ReturnedAboveCursor(changes: seq<Change>, r: Reader, walk: seq<Fetch>, n: int)
    requires IsWalk(changes, r, walk) && Straight(r, walk) && walk != [] && walk[|walk| - 1].page != [] && n in Returned(walk)
    ensures Cursor(walk) <= n
  {
    WalkDescends(changes, r, walk);
    DescendingLeast(Returned(walk), n);
  }

  lemma BelowCursor(changes: seq<Change>, r: Reader, init: seq<Fetch>, last: Fetch, n: int)
    requires IsWalk(changes, r, init) && Straight(r, init) && init != [] && Full(r, init[|init| - 1])
    requires IsFetch(changes, r, last) && last.before == Cursor(init)
    ensures n in Returned(init) ==> last.before <= n
    ensures n in last.page ==> n < last.before
  {
    if n in Returned(init) {
      ReturnedAboveCursor(changes, r, init, n);
    }
    if n in last.page {
      WalkDescends(changes, r, init);
      PageNumbers(changes, r, last, n);
    }
  }

  /** A straight walk has returned what its fetches show, each in its own stretch. */
  lemma {:induction false} StraightShows(changes: seq<Change>, r: Reader, walk: seq<Fetch>, n: int)
    requires IsWalk(changes, r, walk) && Straight(r, walk)
    ensures n in Returned(walk) <==> Shows(walk, n)
  {
    if walk != [] {
      var init, last := walk[..|walk| - 1], walk[|walk| - 1];
      StraightShows(changes, r, init, n);
      if init != [] {
        BelowCursor(changes, r, init, last, n);
      }
    }
  }

  lemma {:induction false} WalkTimes(changes: seq<Change>, r: Reader, walk: seq<Fetch>, i: nat)
    requires IsWalk(changes, r, walk) && i < |walk|
    ensures IsFetch(changes, r, walk[i])
  {
    if i < |walk| - 1 {
      WalkTimes(changes, r, walk[..|walk| - 1], i);
    }
  }

  /** A message the reader could see at every fetch of a finished walk has been returned. */
  lemma AlwaysVisibleIsReturned(changes: seq<Change>, r: Reader, walk: seq<Fetch>, n: int)
    requires IsWalk(changes, r, walk) && Straight(r, walk) && walk != [] && !Full(r, walk[|walk| - 1])
    requires forall i :: 0 <= i < |walk| ==> walk[i].at <= |changes| && VisibleAt(changes, r, walk[i], n)
    ensures n in Returned(walk)
  {
    StraightShows(changes, r, walk, n);
    StraightIsGapless(changes, r, walk);
    WalkTiles(changes, r, walk, n);
  }

  // ---------------------------------------------------------------- termination

  /** Each further number of a descending list costs at least one. */
  lemma {:induction false} DescendingShift(a: seq<int>, top: int)
    requires Descending(a) && a != [] && a[0] <= top
    ensures a[|a| - 1] + |a| - 1 <= top
  {
    if |a| > 1 {
      var init := a[..|a| - 1];
      assert forall i :: 0 <= i < |init| - 1 ==> init[i] == a[i] && init[i] > init[i + 1];
      DescendingShift(init, top);
      assert a[|a| - 2] > a[|a| - 2 + 1];
    }
  }

  lemma OneMore(n: int, c: int)
    ensures (n + 1) * c == n * c + c
  {
  }

  lemma {:induction false} ReturnedLength(changes: seq<Change>, r: Reader, walk: seq<Fetch>)
    requires IsWalk(changes, r, walk) && Straight(r, walk) && walk != []
    ensures |Returned(walk)| == (|walk| - 1) * Clamp(r.limit) + |walk[|walk| - 1].page|
    ensures Returned(walk) != [] ==> walk[0].page != [] && Returned(walk)[0] == walk[0].page[0]
  {
    var init := walk[..|walk| - 1];
    if init == [] {
      assert Returned(walk) == walk[0].page;
    } else {
      ReturnedLength(changes, r, init);
      assert |init[|init| - 1].page| == Clamp(r.limit);
      OneMore(|init| - 1, Clamp(r.limit));
    }
  }

  /** The walk ends: every full page but the last uses up numbers that existed at its first fetch. */
  lemma WalkEnds(changes: seq<Change>, r: Reader, walk: seq<Fetch>)
    requires IsWalk(changes, r, walk) && Straight(r, walk) && |walk| > 1
    ensures walk[0].at <= |changes| && r.conv in State(changes[..walk[0].at]).convs
    ensures (|walk| - 1) * Clamp(r.limit) <= State(changes[..walk[0].at]).convs[r.conv].lastSeq
  {
    var init := walk[..|walk| - 1];
    ReturnedLength(changes, r, init);
    WalkDescends(changes, r, init);
    WalkTimes(changes, r, walk, 0);
    var all := Returned(init);
    assert |all| >= 1 by { assert (|init| - 1) * Clamp(r.limit) >= 0; }
    PageNumbers(changes, r, walk[0], all[0]);
    DescendingShift(all, State(changes[..walk[0].at]).convs[r.conv].lastSeq);
    assert (|init| - 1) * Clamp(r.limit) + Clamp(r.limit) == |init| * Clamp(r.limit);
  }
}
