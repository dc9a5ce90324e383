/**
 The message list of sdk/src/hooks/useMessages.ts, fetching from the store: the initial load,
 loadMore, and messages that arrive or are taken out meanwhile.  The list is kept oldest first.

 loadMore decides by what React rendered last and goes on when its answer arrives, so several
 calls can be under way at once.
 */
module MessageList {
  import opened Prelude
  import opened Heads
  import opened Messages
  import opened MessageRuns
  import opened HistoryWalk

  const PAGE := 50

  /** Array.prototype.reverse */
  function Reversed(s: seq<int>): (r: seq<int>)
    ensures |r| == |s| && forall i :: 0 <= i < |s| ==> r[i] == s[|s| - 1 - i]
  {
    if s == [] then [] else [s[|s| - 1]] + Reversed(s[..|s| - 1])
  }

  lemma ReversedConcat(a: seq<int>, b: seq<int>)
    ensures Reversed(a + b) == Reversed(b) + Reversed(a)
  {
  }

  lemma ListGrows(fetched: seq<int>, older: seq<int>, arrived: seq<int>)
    ensures Reversed(older) + (Reversed(fetched) + arrived) == Reversed(fetched + older) + arrived
  {
    ReversedConcat(fetched, older);
  }

  // ---------------------------------------------------------------- taking a message out

  lemma {:induction false} WithoutReversed(s: seq<int>, n: int)
    ensures Without(Reversed(s), n) == Reversed(Without(s, n))
  {
    if s != [] {
      var init, last := s[..|s| - 1], s[|s| - 1];
      WithoutReversed(init, n);
      WithoutConcat([last], Reversed(init), n);
      assert Without([last], n) == if last == n then [] else [last] by { assert [last][..0] == []; }
      if last != n {
        ReversedConcat(Without(init, n), [last]);
        assert Reversed([last]) == [last];
      }
    }
  }

  lemma {:induction false} WithoutMembers(s: seq<int>, n: int, x: int)
    ensures x in Without(s, n) <==> x in s && x != n
  {
    if s != [] {
      WithoutMembers(s[..|s| - 1], n, x);
      assert s == s[..|s| - 1] + [s[|s| - 1]];
    }
  }

  lemma {:induction false} WithoutDescends(s: seq<int>, n: int)
    requires Descending(s)
    ensures Descending(Without(s, n))
  {
    if s != [] {
      var init, last := s[..|s| - 1], s[|s| - 1];
      assert Descending(init) by {
        forall i | 0 <= i < |init| - 1 ensures init[i] > init[i + 1] { assert s[i] > s[i + 1]; }
      }
      WithoutDescends(init, n);
      if last != n && Without(init, n) != [] {
        var rest := Without(init, n);
        WithoutMembers(init, n, rest[|rest| - 1]);
        BelowAll(s, rest[|rest| - 1]);
        DescendingConcat(rest, [last]);
      }
    }
  }

  lemma BelowAll(s: seq<int>, x: int)
    requires Descending(s) && s != [] && x in s[..|s| - 1]
    ensures s[|s| - 1] < x
  {
    var i :| 0 <= i < |s| - 1 && s[i] == x;
    DescendingPair(s, i, |s| - 1);
  }

  // ---------------------------------------------------------------- what the list holds

  /** What was fetched and not taken out since, newest first, when every call has gone on from the oldest entry. */
  ghost predicate Tidy(r: Reader, walk: seq<Fetch>, fetched: seq<int>, gone: set<int>) {
    && Gapless(r, walk)
    && Descending(fetched)
    && forall n :: n in fetched <==> Shows(walk, n) && n !in gone
  }

  /** The cursor is above nothing that is listed and not below the last page. */
  ghost predicate GoesOn(r: Reader, walk: seq<Fetch>, fetched: seq<int>, before: int) {
    && (forall n :: n in fetched ==> before <= n)
    && (walk != [] && Full(r, walk[|walk| - 1]) ==> Cursor(walk) <= before)
    && before > 0
  }

  /** More changes after the last fetch do not unmake a walk. */
  lemma {:induction false} WalkGoesOn(changes: seq<Change>, later: seq<Change>, r: Reader, walk: seq<Fetch>)
    requires IsWalk(changes, r, walk) && changes <= later
    ensures IsWalk(later, r, walk)
  {
    if walk != [] {
      var last := walk[|walk| - 1];
      WalkGoesOn(changes, later, r, walk[..|walk| - 1]);
      assert later[..last.at] == changes[..last.at];
    }
  }

  lemma OneMoreFetch(history: seq<Change>, now: seq<Change>, r: Reader, walk: seq<Fetch>, f: Fetch)
    requires IsWalk(history, r, walk) && history <= now && f.at == |now|
    requires IsPage(State(now), r.conv, r.user, f.before, f.clear, Clamp(r.limit), f.page)
    ensures IsWalk(now, r, walk + [f])
  {
    var longer := walk + [f];
    WalkGoesOn(history, now, r, walk);
    assert longer[..|longer| - 1] == walk && now[..f.at] == now;
    if walk != [] {
      WalkTimes(history, r, walk, |walk| - 1);
    }
  }

  lemma FirstFetch(now: seq<Change>, r: Reader, f: Fetch)
    requires f.at == |now| && IsPage(State(now), r.conv, r.user, f.before, f.clear, Clamp(r.limit), f.page)
    ensures IsWalk(now, r, [f]) && Tidy(r, [f], f.page, {})
  {
    OneMoreFetch(now, now, r, [], f);
    assert [] + [f] == [f] && [f][..0] == [];
  }

  lemma DeciderSnoc(walk: seq<Fetch>, f: Fetch, n: int)
    ensures Shows(walk + [f], n) <==> if walk == [] || n < f.before then n in f.page else Shows(walk, n)
  {
    assert (walk + [f])[..|walk|] == walk;
  }

  function AtLeast(gone: set<int>, before: int): set<int> {
    set n | n in gone && before <= n
  }

  lemma GrownMember(now: seq<Change>, r: Reader, walk: seq<Fetch>, fetched: seq<int>, gone: set<int>, f: Fetch, n: int)
    requires n in fetched <==> Shows(walk, n) && n !in gone
    requires n in fetched ==> f.before <= n
    requires f.before > 0 && IsFetch(now, r, f)
    ensures n in fetched + f.page <==> Shows(walk + [f], n) && n !in AtLeast(gone, f.before)
  {
    DeciderSnoc(walk, f, n);
    if n in f.page {
      PageNumbers(now, r, f, n);
    }
  }

  lemma GrownDescends(now: seq<Change>, r: Reader, fetched: seq<int>, f: Fetch)
    requires Descending(fetched) && IsFetch(now, r, f) && f.before > 0 && forall n :: n in fetched ==> f.before <= n
    ensures Descending(fetched + f.page)
  {
    PageEnds(now, r, f);
    if fetched != [] {
      assert fetched[|fetched| - 1] in fetched;
    }
    DescendingConcat(fetched, f.page);
  }

  /** An answer that goes on from the list keeps it tidy; what was taken out below its cursor may be back. */
  lemma TidyGrows(now: seq<Change>, r: Reader, walk: seq<Fetch>, fetched: seq<int>, gone: set<int>, f: Fetch)
    requires Tidy(r, walk, fetched, gone) && GoesOn(r, walk, fetched, f.before) && IsFetch(now, r, f)
    ensures Tidy(r, walk + [f], fetched + f.page, AtLeast(gone, f.before))
  {
    assert (walk + [f])[..|walk|] == walk;
    GrownDescends(now, r, fetched, f);
    forall n ensures n in fetched + f.page <==> Shows(walk + [f], n) && n !in AtLeast(gone, f.before) {
      GrownMember(now, r, walk, fetched, gone, f, n);
    }
  }

  lemma TidyShrinks(r: Reader, walk: seq<Fetch>, fetched: seq<int>, gone: set<int>, n: int)
    requires Tidy(r, walk, fetched, gone)
    ensures Tidy(r, walk, Without(fetched, n), gone + {n})
  {
    WithoutDescends(fetched, n);
    forall x ensures x in Without(fetched, n) <==> Shows(walk, x) && x !in gone + {n} {
      WithoutMembers(fetched, n, x);
    }
  }

  /** Everything fetched lies at or above the cursor of the walk, whatever was taken out. */
  lemma ListedAboveCursor(changes: seq<Change>, r: Reader, walk: seq<Fetch>, n: int)
    requires IsWalk(changes, r, walk) && walk != [] && walk[|walk| - 1].page != [] && Shows(walk, n)
    requires Gapless(r, walk)
    ensures Cursor(walk) <= n
  {
    var last := walk[|walk| - 1];
    if |walk| == 1 || n < last.before {
      DescendingLeast(last.page, n);
    } else {
      PageEnds(changes, r, last);
      DescendingLeast(last.page, last.page[0]);
    }
  }

  /** What was fetched starts, in the list, with its smallest number. */
  lemma FetchedStart(fetched: seq<int>, arrived: seq<int>)
    requires Descending(fetched) && fetched != []
    ensures (Reversed(fetched) + arrived)[0] == fetched[|fetched| - 1]
    ensures forall n :: n in fetched ==> fetched[|fetched| - 1] <= n
  {
    forall n | n in fetched ensures fetched[|fetched| - 1] <= n {
      DescendingLeast(fetched, n);
    }
  }

  /**
   The oldest entry is never below the cursor of the walk, so a call that uses it leaves no gap
   and lists nothing twice.  Where nothing that was fetched is left, that is up to the messages
   that have arrived.
   */
  lemma OldestGoesOn(history: seq<Change>, r: Reader, walk: seq<Fetch>, fetched: seq<int>, gone: set<int>, arrived: seq<int>)
    requires IsWalk(history, r, walk) && Tidy(r, walk, fetched, gone) && Reversed(fetched) + arrived != []
    requires fetched == [] ==> arrived[0] > 0 && (walk != [] && Full(r, walk[|walk| - 1]) ==> Cursor(walk) <= arrived[0])
    ensures GoesOn(r, walk, fetched, (Reversed(fetched) + arrived)[0])
  {
    if fetched != [] {
      var oldest := fetched[|fetched| - 1];
      FetchedStart(fetched, arrived);
      assert oldest in fetched;
      WalkTimes(history, r, walk, Decider(walk, oldest));
      PageNumbers(history, r, walk[Decider(walk, oldest)], oldest);
      if walk[|walk| - 1].page != [] {
        ListedAboveCursor(history, r, walk, oldest);
      }
    } else {
      assert Reversed(fetched) + arrived == arrived;
    }
  }

  /**
   Down to the cursor, and all the way down once a page was not full: what was visible when it was
   fetched, less what was taken out.
   */
  lemma ListedIffVisible(history: seq<Change>, r: Reader, walk: seq<Fetch>, fetched: seq<int>, gone: set<int>, n: int)
    requires IsWalk(history, r, walk) && Tidy(r, walk, fetched, gone) && walk != []
    requires (walk[0].before > 0 ==> n < walk[0].before) && (Full(r, walk[|walk| - 1]) ==> Cursor(walk) <= n)
    ensures walk[Decider(walk, n)].at <= |history|
    ensures n in fetched <==> VisibleAt(history, r, walk[Decider(walk, n)], n) && n !in gone
  {
    WalkTiles(history, r, walk, n);
  }

  // ---------------------------------------------------------------- the same cursor twice

  lemma PageStart(t: Tables, conv: ConvId, user: User, before: int, clear: int, limit: nat, page: seq<int>, n: int)
    requires IsPage(t, conv, user, before, clear, limit, page) && limit > 0 && Selected(t, conv, user, before, clear, n)
    ensures page != [] && n <= page[0]
  {
    if n in page {
      var i :| 0 <= i < |page| && page[i] == n;
      if i > 0 {
        DescendingPair(page, 0, i);
      }
    } else if |page| > 1 {
      DescendingPair(page, 0, |page| - 1);
    }
  }

  lemma PageRest(t: Tables, conv: ConvId, user: User, before: int, clear: int, limit: nat, page: seq<int>)
    requires IsPage(t, conv, user, before, clear, limit, page) && page != [] && page[0] > 0
    ensures IsPage(t, conv, user, page[0], clear, limit - 1, page[1..])
  {
    DescendingTail(page);
    assert page == [page[0]] + page[1..];
    forall n | n in page[1..] ensures Selected(t, conv, user, page[0], clear, n) {
      assert n in page;
    }
    forall n | Selected(t, conv, user, page[0], clear, n) && n !in page[1..]
      ensures |page[1..]| == limit - 1 && (limit - 1 > 0 ==> n < page[1..][|page[1..]| - 1])
    {
      assert Selected(t, conv, user, before, clear, n) && n !in page by {
        PageStart(t, conv, user, before, clear, limit, page, page[0]);
      }
    }
  }

  /** The tables, the cursor and the limit leave GetMessages one answer. */
  lemma {:induction false} OnePage(t: Tables, conv: ConvId, user: User, before: int, clear: int, limit: nat,
                                   p: seq<int>, q: seq<int>)
    requires SeqsOk(t) && IsPage(t, conv, user, before, clear, limit, p) && IsPage(t, conv, user, before, clear, limit, q)
    ensures p == q
    decreases limit
  {
    if p != [] {
      PageStart(t, conv, user, before, clear, limit, q, p[0]);
    }
    if q != [] {
      PageStart(t, conv, user, before, clear, limit, p, q[0]);
    }
    if p != [] {
      assert p[0] == q[0] && Selected(t, conv, user, before, clear, p[0]) && Numbered(t, (conv, p[0]));
      PageRest(t, conv, user, before, clear, limit, p);
      PageRest(t, conv, user, before, clear, limit, q);
      OnePage(t, conv, user, p[0], clear, limit - 1, p[1..], q[1..]);
      assert p == [p[0]] + p[1..] && q == [q[0]] + q[1..];
    }
  }

  /**
   Two answers to one cursor, with nothing changed in between: the second does not go on from the
   first, and lists its page again.
   */
  lemma TwoCallsListTwice(now: seq<Change>, r: Reader, walk: seq<Fetch>, fetched: seq<int>, f: Fetch, g: Fetch, n: int)
    requires IsFetch(now, r, f) && IsFetch(now, r, g) && f.(page := []) == g.(page := []) && n in f.page && f.before > 0
    ensures g == f && Count(fetched + f.page + g.page, n) >= 2 && !GoesOn(r, walk + [f], fetched + f.page, g.before)
  {
    Reachable(now[..f.at]);
    OnePage(State(now[..f.at]), r.conv, r.user, f.before, f.clear, Clamp(r.limit), f.page, g.page);
    PageNumbers(now, r, f, n);
    CountConcat(fetched + f.page, g.page, n);
    CountConcat(fetched, f.page, n);
    CountedIsIn(f.page, n);
    assert n in fetched + f.page;
  }

  // ---------------------------------------------------------------- the hook

  /**
   How a list came about: what had happened at the last fetch, the fetches, what of them is
   listed (newest first), what has arrived, what was taken out since it was fetched, and whether
   every answer went on from the list as it was.
   */
  datatype Account = Account(history: seq<Change>, walk: seq<Fetch>, fetched: seq<int>, arrived: seq<int>,
                             gone: set<int>, tidy: bool)

  ghost predicate Accounts(r: Reader, a: Account, messages: seq<int>, hasMore: bool) {
    && IsWalk(a.history, r, a.walk)
    && messages == Reversed(a.fetched) + a.arrived
    && (hasMore <==> a.walk == [] || Full(r, a.walk[|a.walk| - 1]))
    && (a.tidy ==> Tidy(r, a.walk, a.fetched, a.gone))
  }

  ghost function Answered(r: Reader, a: Account, now: seq<Change>, f: Fetch): Account {
    Account(now, a.walk + [f], a.fetched + f.page, a.arrived, AtLeast(a.gone, f.before),
            a.tidy && GoesOn(r, a.walk, a.fetched, f.before))
  }

  lemma FirstAccounts(r: Reader, now: seq<Change>, f: Fetch)
    requires f.at == |now| && IsPage(State(now), r.conv, r.user, f.before, f.clear, Clamp(r.limit), f.page)
    ensures Accounts(r, Account(now, [f], f.page, [], {}, true), Reversed(f.page), Full(r, f))
  {
    FirstFetch(now, r, f);
  }

  lemma AnsweredAccounts(r: Reader, a: Account, messages: seq<int>, hasMore: bool, now: seq<Change>, f: Fetch)
    requires Accounts(r, a, messages, hasMore) && a.history <= now && f.at == |now|
    requires IsPage(State(now), r.conv, r.user, f.before, f.clear, Clamp(r.limit), f.page)
    ensures Accounts(r, Answered(r, a, now, f), Reversed(f.page) + messages, Full(r, f))
  {
    OneMoreFetch(a.history, now, r, a.walk, f);
    ListGrows(a.fetched, f.page, a.arrived);
    if a.tidy && GoesOn(r, a.walk, a.fetched, f.before) {
      assert now[..f.at] == now;
      TidyGrows(now, r, a.walk, a.fetched, a.gone, f);
    }
  }

  ghost function TakenOut(a: Account, n: int): Account {
    a.(fetched := Without(a.fetched, n), arrived := Without(a.arrived, n), gone := a.gone + {n})
  }

  lemma TakenOutAccounts(r: Reader, a: Account, messages: seq<int>, hasMore: bool, n: int)
    requires Accounts(r, a, messages, hasMore)
    ensures Accounts(r, TakenOut(a, n), Without(messages, n), hasMore)
  {
    WithoutConcat(Reversed(a.fetched), a.arrived, n);
    WithoutReversed(a.fetched, n);
    if a.tidy {
      TidyShrinks(r, a.walk, a.fetched, a.gone, n);
    }
  }

  /** What a call of loadMore sees: the state at the last rendering. */
  datatype Rendered = Rendered(messages: seq<int>, hasMore: bool, isLoading: bool)

  class Hook {
    const reader: Reader
    var messages: seq<int>
    var hasMore: bool
    var isLoading: bool
    var shown: Rendered
    ghost var account: Account

    ghost predicate Valid()
      reads this
    {
      reader.limit == PAGE && Accounts(reader, account, messages, hasMore)
    }

    constructor (conv: ConvId, user: User)
      ensures Valid() && reader == Reader(conv, user, PAGE) && account == Account([], [], [], [], {}, true)
      ensures !isLoading && shown == Rendered([], true, false)
    {
      reader := Reader(conv, user, PAGE);
      messages, hasMore, isLoading, shown := [], true, false, Rendered([], true, false);
      account := Account([], [], [], [], {}, true);
    }

    method Render()
      modifies this`shown
      ensures shown == Rendered(messages, hasMore, isLoading)
    {
      shown := Rendered(messages, hasMore, isLoading);
    }

    /** The answer to the fetch that a mounting component makes; it replaces what is there. */
    method Load(db: Store, clear: int, ghost now: seq<Change>) returns (msgs: seq<int>)
      requires Valid() && db.View() == State(now)
      modifies this`messages, this`hasMore, this`isLoading, this`account
      ensures Valid() && !isLoading
      ensures |msgs| <= 50 && (hasMore <==> |msgs| == 50) && messages == Reversed(msgs)
      ensures account == Account(now, [Fetch(|now|, clear, 0, msgs)], msgs, [], {}, true)
    {
      Reachable(now);
      msgs := db.GetMessages(reader.conv, reader.user, 0, PAGE, clear);
      ghost var f := Fetch(|now|, clear, 0, msgs);
      FirstAccounts(reader, now, f);
      messages, hasMore, isLoading := Reversed(msgs), |msgs| == PAGE, false;
      account := Account(now, [f], msgs, [], {}, true);
    }

    method HandleMessage(n: int)
      requires Valid()
      modifies this`messages, this`account
      ensures Valid() && messages == old(messages) + [n] && account == old(account).(arrived := old(account).arrived + [n])
    {
      messages := messages + [n];
      account := account.(arrived := account.arrived + [n]);
    }

    /** An unsend event, or a deletion for everyone. */
    method HandleUnsend(n: int)
      requires Valid()
      modifies this`messages, this`account
      ensures Valid() && messages == Without(old(messages), n) && account == TakenOut(old(account), n)
    {
      TakenOutAccounts(reader, account, messages, hasMore, n);
      messages := Without(messages, n);
      account := TakenOut(account, n);
    }

    /** A call of loadMore up to its request; None if it makes none, as on an emptied list whatever hasMore says. */
    method LoadMore() returns (before: Option<int>)
      modifies this`isLoading
      ensures before == if shown.isLoading || !shown.hasMore || shown.messages == [] then None else Some(shown.messages[0])
      ensures isLoading == (old(isLoading) || before.Some?)
    {
      if shown.isLoading || !shown.hasMore || |shown.messages| == 0 {
        return None;
      }
      isLoading := true;
      return Some(shown.messages[0]);
    }

    /** The answer to that request. */
    method LoadedMore(db: Store, before: int, clear: int, ghost now: seq<Change>) returns (olderMsgs: seq<int>)
      requires Valid() && account.history <= now && db.View() == State(now)
      modifies this`messages, this`hasMore, this`isLoading, this`account
      ensures Valid() && !isLoading && messages == Reversed(olderMsgs) + old(messages)
      ensures |olderMsgs| <= 50 && (hasMore <==> |olderMsgs| == 50)
      ensures account == Answered(reader, old(account), now, Fetch(|now|, clear, before, olderMsgs))
    {
      Reachable(now);
      olderMsgs := db.GetMessages(reader.conv, reader.user, before, PAGE, clear);
      ghost var f := Fetch(|now|, clear, before, olderMsgs);
      AnsweredAccounts(reader, account, messages, hasMore, now, f);
      messages, hasMore, isLoading := Reversed(olderMsgs) + messages, |olderMsgs| == PAGE, false;
      account := Answered(reader, account, now, f);
    }

    /** A fetch that failed. */
    method Failed()
      modifies this`isLoading
      ensures !isLoading
    {
      isLoading := false;
    }
  }
}
