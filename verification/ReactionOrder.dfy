/**
 The order of the users under an emoji.  It is that of their latest reactions, so a client that
 never hears of its own session's reactions can show the right users in another order.
 */
module ReactionOrder {
  import opened Prelude
  import opened Heads
  import opened Messages
  import opened RowRace
  import opened ReactionMirror

  /** The number of the latest write in which the user reacted with the emoji, 0 without any. */
  function Latest(writes: seq<Write>, user: Json, emoji: Emoji): (n: nat)
    ensures n <= |writes|
  {
    if writes == [] then 0
    else
      var init, last := writes[..|writes| - 1], writes[|writes| - 1];
      if last.React? && Str(last.user) == user && last.emoji == emoji then |writes| else Latest(init, user, emoji)
  }

  function ListOf(h: Head, emoji: Emoji): seq<Json> {
    UsersOf(ReactionsOf(h), emoji)
  }

  /** The users stand in the order of their latest reactions. */
  ghost predicate Ranked(users: seq<Json>, writes: seq<Write>, emoji: Emoji) {
    users == [] ||
    var init, last := users[..|users| - 1], users[|users| - 1];
    Ranked(init, writes, emoji) && forall user :: user in init ==> Before(writes, emoji, user, last)
  }

  predicate Before(writes: seq<Write>, emoji: Emoji, user: Json, other: Json) {
    Latest(writes, user, emoji) < Latest(writes, other, emoji)
  }

  // ---------------------------------------------------------------- what a reaction does to the lists

  lemma ReactedList(h: Head, user: User, emoji: Emoji, emoji': Emoji)
    ensures ListOf(Reacted(h, user, emoji), emoji')
         == if emoji' == emoji then Toggled(ListOf(h, emoji), Str(user)) else ListOf(h, emoji')
  {
    var stored := Stored(ReactionsOf(h), emoji, Toggled(ListOf(h, emoji), Str(user)));
    assert ReactionsOf(Reacted(h, user, emoji)) == stored;
  }

  lemma {:induction false} RankedWithout(users: seq<Json>, writes: seq<Write>, emoji: Emoji, user: Json)
    requires Ranked(users, writes, emoji)
    ensures Ranked(Without(users, user), writes, emoji)
  {
    if users != [] {
      var init, last := users[..|users| - 1], users[|users| - 1];
      RankedWithout(init, writes, emoji, user);
      if last != user {
        forall other | other in Without(init, user) ensures Before(writes, emoji, other, last) {
          WithoutKeeps(init, user, other);
        }
        RankedSnoc(Without(init, user), writes, emoji, last);
      }
    }
  }

  lemma RankedSnoc(users: seq<Json>, writes: seq<Write>, emoji: Emoji, last: Json)
    requires Ranked(users, writes, emoji) && forall user :: user in users ==> Before(writes, emoji, user, last)
    ensures Ranked(users + [last], writes, emoji)
  {
    assert (users + [last])[..|users|] == users;
  }

  /** A write that is none of these users' reactions with the emoji leaves their order alone. */
  lemma {:induction false} RankedLater(users: seq<Json>, writes: seq<Write>, w: Write, emoji: Emoji)
    requires Ranked(users, writes, emoji)
    requires w.React? && w.emoji == emoji ==> Str(w.user) !in users
    ensures Ranked(users, writes + [w], emoji)
  {
    if users != [] {
      var init, last := users[..|users| - 1], users[|users| - 1];
      assert (writes + [w])[..|writes|] == writes;
      RankedLater(init, writes, w, emoji);
      forall user | user in init ensures Before(writes + [w], emoji, user, last) {
        assert Before(writes, emoji, user, last) && user in users;
      }
    }
  }

  /** In the table of a message followed from its sending each list is ranked, and holds users only. */
  ghost predicate ListRanked(h: Head, writes: seq<Write>, emoji: Emoji) {
    Ranked(ListOf(h, emoji), writes, emoji) && forall user :: user in ListOf(h, emoji) ==> user.Str?
  }

  lemma {:induction false} ReplayRanked(row: Message, writes: seq<Write>, emoji: Emoji)
    requires JustSent(row)
    ensures ListRanked(OrEmpty(Replay(row, writes).head), writes, emoji)
  {
    if writes != [] {
      var init, last := writes[..|writes| - 1], writes[|writes| - 1];
      ReplayRanked(row, init, emoji);
      WriteRanked(OrEmpty(Replay(row, init).head), OrEmpty(Replay(row, writes).head), init, last, emoji) by {
        assert !last.React? ==> ReactionsOf(OrEmpty(Replay(row, init).head)) == ReactionsOf(OrEmpty(Replay(row, writes).head));
      }
      assert writes == init + [last];
    }
  }

  lemma WriteRanked(h: Head, h': Head, init: seq<Write>, w: Write, emoji: Emoji)
    requires ListRanked(h, init, emoji)
    requires if w.React? then h' == Reacted(h, w.user, w.emoji) else ReactionsOf(h') == ReactionsOf(h)
    ensures ListRanked(h', init + [w], emoji)
  {
    var users := ListOf(h, emoji);
    if w.React? && w.emoji == emoji {
      ReactedList(h, w.user, w.emoji, emoji);
      ToggledRanked(users, init, w, emoji);
    } else {
      if w.React? {
        ReactedList(h, w.user, w.emoji, emoji);
      }
      RankedLater(users, init, w, emoji);
    }
  }

  lemma ToggledRanked(users: seq<Json>, init: seq<Write>, w: Write, emoji: Emoji)
    requires Ranked(users, init, emoji) && w.React? && w.emoji == emoji && forall user :: user in users ==> user.Str?
    ensures Ranked(Toggled(users, Str(w.user)), init + [w], emoji)
    ensures forall user :: user in Toggled(users, Str(w.user)) ==> user.Str?
  {
    var user := Str(w.user);
    assert (init + [w])[..|init|] == init;
    forall other ensures other in Without(users, user) <==> other in users && other != user {
      WithoutKeeps(users, user, other);
    }
    if user in users {
      RankedWithout(users, init, emoji, user);
      RankedLater(Without(users, user), init, w, emoji);
    } else {
      RankedLater(users, init, w, emoji);
      RankedSnoc(users, init + [w], emoji, user);
    }
  }

  // ---------------------------------------------------------------- one order, one list

  /** Of any two users of the list the same one reacted last in both accounts. */
  ghost predicate SameOrder(users: seq<Json>, writes: seq<Write>, writes': seq<Write>, emoji: Emoji) {
    forall user, other :: user in users && other in users ==>
      (Before(writes, emoji, user, other) <==> Before(writes', emoji, user, other))
  }

  lemma {:induction false} RankedPair(users: seq<Json>, writes: seq<Write>, emoji: Emoji, i: nat, j: nat)
    requires Ranked(users, writes, emoji) && i < j < |users|
    ensures Before(writes, emoji, users[i], users[j])
  {
    var init := users[..|users| - 1];
    if j == |users| - 1 {
      assert init[i] in init;
    } else {
      RankedPair(init, writes, emoji, i, j);
    }
  }

  lemma OrderByPlace(users: seq<Json>, writes: seq<Write>, emoji: Emoji, i: nat, j: nat)
    requires Ranked(users, writes, emoji) && i < |users| && j < |users|
    ensures Before(writes, emoji, users[i], users[j]) <==> i < j
  {
    if i < j {
      RankedPair(users, writes, emoji, i, j);
    } else if j < i {
      RankedPair(users, writes, emoji, j, i);
    }
  }

  lemma OneListOneOrder(users: seq<Json>, writes: seq<Write>, writes': seq<Write>, emoji: Emoji)
    requires Ranked(users, writes, emoji) && Ranked(users, writes', emoji)
    ensures SameOrder(users, writes, writes', emoji)
  {
    forall user, other | user in users && other in users
      ensures Before(writes, emoji, user, other) <==> Before(writes', emoji, user, other)
    {
      var i :| 0 <= i < |users| && users[i] == user;
      var j :| 0 <= j < |users| && users[j] == other;
      OrderByPlace(users, writes, emoji, i, j);
      OrderByPlace(users, writes', emoji, i, j);
    }
  }

  lemma LastIsNotEarlier(users: seq<Json>, writes: seq<Write>, emoji: Emoji, user: Json)
    requires Ranked(users, writes, emoji) && user in users
    ensures user == users[|users| - 1] || (Before(writes, emoji, user, users[|users| - 1]) && user in users[..|users| - 1])
    ensures users[|users| - 1] !in users[..|users| - 1]
  {
    var init, last := users[..|users| - 1], users[|users| - 1];
    assert users == init + [last];
    assert last in init ==> Before(writes, emoji, last, last);
  }

  lemma SameMembersEmpty(a: seq<Json>, b: seq<Json>)
    requires forall user :: user in a <==> user in b
    ensures a == [] <==> b == []
  {
    if a != [] {
      assert a[0] in a;
    }
    if b != [] {
      assert b[0] in b;
    }
  }

  lemma {:induction false} OneOrderOneList(a: seq<Json>, b: seq<Json>, writes: seq<Write>, writes': seq<Write>, emoji: Emoji)
    requires Ranked(a, writes, emoji) && Ranked(b, writes', emoji) && SameOrder(a, writes, writes', emoji)
    requires forall user :: user in a <==> user in b
    ensures a == b
  {
    SameMembersEmpty(a, b);
    if a != [] {
      var initA, lastA, initB, lastB := a[..|a| - 1], a[|a| - 1], b[..|b| - 1], b[|b| - 1];
      LastIsNotEarlier(a, writes, emoji, lastB);
      LastIsNotEarlier(b, writes', emoji, lastA);
      assert lastA == lastB;
      forall user ensures user in initA <==> user in initB {
        if user in a {
          LastIsNotEarlier(a, writes, emoji, user);
          LastIsNotEarlier(b, writes', emoji, user);
        }
      }
      OneOrderOneList(initA, initB, writes, writes', emoji);
      assert a == initA + [lastA] && b == initB + [lastB];
    }
  }

  // ---------------------------------------------------------------- when the client shows the server's lists

  lemma ListsDetermine(h: Head, h': Head)
    requires HeadOk(h) && HeadOk(h') && forall emoji :: ListOf(h, emoji) == ListOf(h', emoji)
    ensures SameReactions(h, h')
  {
    var r, r' := ReactionsOf(h), ReactionsOf(h');
    forall emoji ensures (emoji in r <==> emoji in r') && (emoji in r ==> r[emoji] == r'[emoji]) {
      assert ListOf(h, emoji) == ListOf(h', emoji);
      assert emoji in r ==> ListOk(r[emoji]);
      assert emoji in r' ==> ListOk(r'[emoji]);
    }
    assert r == r';
  }

  predicate Reacting(writes: seq<Write>, user: User, emoji: Emoji) {
    Toggles(writes, user, emoji) % 2 == 1
  }

  /** Of any two users who end up under the emoji, the same one reacted last with and without the session's own reactions. */
  ghost predicate KeepsOrder(writes: seq<Write>, own: nat, emoji: Emoji) {
    forall user: User, other: User :: Reacting(writes, user, emoji) && Reacting(writes, other, emoji) ==>
      (Before(writes, emoji, Str(user), Str(other)) <==> Before(Heard(own, writes), emoji, Str(user), Str(other)))
  }

  lemma StandingIsReacting(row: Message, writes: seq<Write>, user: User, emoji: Emoji)
    requires JustSent(row)
    ensures Str(user) in ListOf(OrEmpty(Replay(row, writes).head), emoji) <==> Reacting(writes, user, emoji)
  {
    ReplayReactions(row, writes, user, emoji);
  }

  lemma KeepsOrderIff(row: Message, writes: seq<Write>, own: nat, emoji: Emoji)
    requires JustSent(row)
    ensures KeepsOrder(writes, own, emoji)
       <==> SameOrder(ListOf(OrEmpty(Replay(row, writes).head), emoji), writes, Heard(own, writes), emoji)
  {
    var users := ListOf(OrEmpty(Replay(row, writes).head), emoji);
    ReplayRanked(row, writes, emoji);
    forall user: User ensures Str(user) in users <==> Reacting(writes, user, emoji) {
      StandingIsReacting(row, writes, user, emoji);
    }
    if KeepsOrder(writes, own, emoji) {
      forall user, other | user in users && other in users
        ensures Before(writes, emoji, user, other) <==> Before(Heard(own, writes), emoji, user, other)
      {
        assert user == Str(user.s) && other == Str(other.s);
        assert Reacting(writes, user.s, emoji) && Reacting(writes, other.s, emoji);
      }
    }
  }

  lemma OneList(row: Message, writes: seq<Write>, own: nat, emoji: Emoji)
    requires JustSent(row) && KeepsOrder(writes, own, emoji)
    requires AllAgree(OrEmpty(Replay(row, writes).head), OrEmpty(Replay(row, Heard(own, writes)).head))
    ensures ListOf(OrEmpty(Replay(row, writes).head), emoji) == ListOf(OrEmpty(Replay(row, Heard(own, writes)).head), emoji)
  {
    var h, h' := OrEmpty(Replay(row, writes).head), OrEmpty(Replay(row, Heard(own, writes)).head);
    ReplayRanked(row, writes, emoji);
    ReplayRanked(row, Heard(own, writes), emoji);
    KeepsOrderIff(row, writes, own, emoji);
    forall user ensures user in ListOf(h, emoji) <==> user in ListOf(h', emoji) {
      if user.Str? {
        assert Agree(h, h', user.s, emoji);
      }
    }
    OneOrderOneList(ListOf(h, emoji), ListOf(h', emoji), writes, Heard(own, writes), emoji);
  }

  /**
   A client that has followed a message from its sending has the server's reactions, every list
   in the same order, if and only if its own session made each reaction an even number of times
   and did not decide which of two users who are left under an emoji came last.
   */
  lemma SameListsIff(row: Message, writes: seq<Write>, own: nat, client: Head)
    requires JustSent(row) && Reduced(OrEmpty(row.head), BroadcastTo(own, writes)) == Some(client)
    ensures SameReactions(OrEmpty(Replay(row, writes).head), client)
       <==> (forall user, emoji :: Even(writes, own, user, emoji)) && forall emoji :: KeepsOrder(writes, own, emoji)
  {
    var h, h' := OrEmpty(Replay(row, writes).head), OrEmpty(Replay(row, Heard(own, writes)).head);
    FollowsHeard(row, writes, own);
    AllAgreeIffEven(row, writes, own, h');
    if SameReactions(h, client) {
      forall user, emoji ensures Agree(h, h', user, emoji) {
        SameUsers(h, h', user, emoji);
      }
      forall emoji ensures KeepsOrder(writes, own, emoji) {
        ReplayRanked(row, writes, emoji);
        ReplayRanked(row, Heard(own, writes), emoji);
        OneListOneOrder(ListOf(h, emoji), writes, Heard(own, writes), emoji);
        KeepsOrderIff(row, writes, own, emoji);
      }
    } else if AllAgree(h, h') && forall emoji :: KeepsOrder(writes, own, emoji) {
      forall emoji ensures ListOf(h, emoji) == ListOf(h', emoji) {
        OneList(row, writes, own, emoji);
      }
      ReplayHeadOk(row, writes);
      ReplayHeadOk(row, Heard(own, writes));
      ListsDetermine(h, h');
    }
  }

  /** Two sessions of `a`, 0 and 1, and one of `b`: session 0 takes the reaction of session 1 back and makes it again. */
  function Again(a: User, b: User, emoji: Emoji): seq<Write> {
    [React(1, a, emoji, 0), React(2, b, emoji, 0), React(0, a, emoji, 0), React(0, a, emoji, 0)]
  }

  lemma AgainIsFour(a: User, b: User, emoji: Emoji) returns (one: seq<Write>, two: seq<Write>, three: seq<Write>)
    ensures one == [] + [React(1, a, emoji, 0)] && two == one + [React(2, b, emoji, 0)]
    ensures three == two + [React(0, a, emoji, 0)] && Again(a, b, emoji) == three + [React(0, a, emoji, 0)]
  {
    one := [] + [React(1, a, emoji, 0)];
    two := one + [React(2, b, emoji, 0)];
    three := two + [React(0, a, emoji, 0)];
  }

  lemma CountsSnoc(writes: seq<Write>, w: Write, own: nat, user: User, emoji: Emoji)
    ensures Toggles(writes + [w], user, emoji)
         == Toggles(writes, user, emoji) + if w.React? && w.user == user && w.emoji == emoji then 1 else 0
    ensures OwnToggles(writes + [w], own, user, emoji)
         == OwnToggles(writes, own, user, emoji) + if w.React? && w.s == own && w.user == user && w.emoji == emoji then 1 else 0
  {
    assert (writes + [w])[..|writes|] == writes;
  }

  lemma AgainCounts(a: User, b: User, emoji: Emoji, user: User, emoji': Emoji)
    requires a != b
    ensures Even(Again(a, b, emoji), 0, user, emoji')
    ensures Toggles(Again(a, b, emoji), user, emoji')
         == (if user == a && emoji' == emoji then 3 else 0) + if user == b && emoji' == emoji then 1 else 0
  {
    var one, two, three := AgainIsFour(a, b, emoji);
    CountsSnoc([], React(1, a, emoji, 0), 0, user, emoji');
    CountsSnoc(one, React(2, b, emoji, 0), 0, user, emoji');
    CountsSnoc(two, React(0, a, emoji, 0), 0, user, emoji');
    CountsSnoc(three, React(0, a, emoji, 0), 0, user, emoji');
  }

  lemma LatestSnoc(writes: seq<Write>, w: Write, user: Json, emoji: Emoji)
    ensures Latest(writes + [w], user, emoji)
         == if w.React? && Str(w.user) == user && w.emoji == emoji then |writes| + 1 else Latest(writes, user, emoji)
  {
    assert (writes + [w])[..|writes|] == writes;
  }

  lemma HeardSnoc(writes: seq<Write>, w: Write, own: nat)
    ensures Heard(own, writes + [w]) == if w.React? && w.s == own then Heard(own, writes) else Heard(own, writes) + [w]
  {
    assert (writes + [w])[..|writes|] == writes;
  }

  lemma AgainLatest(a: User, b: User, emoji: Emoji, user: User)
    requires a != b
    ensures Latest(Again(a, b, emoji), Str(user), emoji) == if user == a then 4 else if user == b then 2 else 0
    ensures Latest(Heard(0, Again(a, b, emoji)), Str(user), emoji) == if user == a then 1 else if user == b then 2 else 0
  {
    var one, two, three := AgainIsFour(a, b, emoji);
    LatestSnoc([], React(1, a, emoji, 0), Str(user), emoji);
    LatestSnoc(one, React(2, b, emoji, 0), Str(user), emoji);
    LatestSnoc(two, React(0, a, emoji, 0), Str(user), emoji);
    LatestSnoc(three, React(0, a, emoji, 0), Str(user), emoji);
    HeardSnoc([], React(1, a, emoji, 0), 0);
    HeardSnoc(one, React(2, b, emoji, 0), 0);
    HeardSnoc(two, React(0, a, emoji, 0), 0);
    HeardSnoc(three, React(0, a, emoji, 0), 0);
  }

  /** The server has `a` behind `b` then, and the client of session 0 has them the other way round. */
  lemma OrderCanDiffer(row: Message, a: User, b: User, emoji: Emoji)
    requires JustSent(row) && a != b && emoji !in INHERITED
    ensures
      var client := Reduced(OrEmpty(row.head), BroadcastTo(0, Again(a, b, emoji)));
      && client.Some? && AllAgree(OrEmpty(Replay(row, Again(a, b, emoji)).head), client.value)
      && !SameReactions(OrEmpty(Replay(row, Again(a, b, emoji)).head), client.value)
  {
    var writes := Again(a, b, emoji);
    assert forall i :: 0 <= i < |writes| ==> writes[i].emoji == emoji;
    TripsOnInheritedName(row, writes, 0);
    forall user, emoji' ensures Even(writes, 0, user, emoji') {
      AgainCounts(a, b, emoji, user, emoji');
    }
    AgainCounts(a, b, emoji, a, emoji);
    AgainCounts(a, b, emoji, b, emoji);
    AgainLatest(a, b, emoji, a);
    AgainLatest(a, b, emoji, b);
    assert Reacting(writes, a, emoji) && Reacting(writes, b, emoji);
    MirrorFollowsServer(row, writes, 0);
    SameListsIff(row, writes, 0, Reduced(OrEmpty(row.head), BroadcastTo(0, writes)).value);
    assert !KeepsOrder(writes, 0, emoji);
  }
}
