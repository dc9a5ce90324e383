/**
 The reducer in sdk/src/hooks/useMessages.ts that repeats on the client what AddReaction does
 on the server.  An object property that is undefined is an absent field.

 The client's reactions are a plain object, so a name that is no key of its own is looked up on
 Object.prototype.  The member found there has no `includes`, and calling it throws.
 */
module ReactionMirror {
  import opened Prelude
  import opened Heads
  import opened Messages
  import opened RowRace

  datatype Event = Event(from: User, emoji: Emoji)

  /** The members of Object.prototype (sections 20.1.3 and B.2.2 of ECMA-262). */
  const INHERITED: set<string> := {
    "constructor", "hasOwnProperty", "isPrototypeOf", "propertyIsEnumerable", "toLocaleString", "toString", "valueOf",
    "__proto__", "__defineGetter__", "__defineSetter__", "__lookupGetter__", "__lookupSetter__"
  }

  /** `reactions[emoji]?.includes(user)` finds something that is not a list. */
  predicate Throws(reactions: map<string, Json>, emoji: Emoji) {
    emoji !in reactions && emoji in INHERITED
  }

  /** handleReact on a message's own head: copy, toggle, drop what became empty; None is a TypeError. */
  method HandleReact(head: Option<Head>, event: Event) returns (newHead: Option<Head>)
    requires HeadOk(OrEmpty(head))
    ensures newHead == Mirrored(OrEmpty(head), event)
  {
    var copy := OrEmpty(head);
    var reactions := ReactionsOf(copy);
    ghost var was := reactions;
    if Throws(reactions, event.emoji) {
      return None;
    }
    if event.emoji in reactions && Str(event.from) in UsersOf(reactions, event.emoji) {
      var users := FilterOut(UsersOf(reactions, event.emoji), Str(event.from));
      reactions := reactions[event.emoji := Arr(users)];
      if |users| == 0 {
        reactions := reactions - {event.emoji};
      }
    } else {
      if event.emoji !in reactions {
        reactions := reactions[event.emoji := Arr([])];
      }
      reactions := reactions[event.emoji := Arr(UsersOf(reactions, event.emoji) + [Str(event.from)])];
    }
    assert reactions == MirroredReactions(was, event);
    if reactions != map[] {
      copy := copy[Reactions := Obj(reactions)];
    } else {
      copy := copy - {Reactions};
    }
    return Some(copy);
  }

  /** Array.prototype.filter with `u !== user`. */
  function FilterOut(users: seq<Json>, user: Json): seq<Json> {
    if users == [] then []
    else if users[0] == user then FilterOut(users[1..], user)
    else [users[0]] + FilterOut(users[1..], user)
  }

  function MirroredReactions(reactions: map<string, Json>, event: Event): map<string, Json> {
    if event.emoji in reactions && Str(event.from) in UsersOf(reactions, event.emoji) then
      var users := FilterOut(UsersOf(reactions, event.emoji), Str(event.from));
      if users == [] then reactions - {event.emoji} else reactions[event.emoji := Arr(users)]
    else reactions[event.emoji := Arr(UsersOf(reactions, event.emoji) + [Str(event.from)])]
  }

  function Mirrored(head: Head, event: Event): Option<Head> {
    if Throws(ReactionsOf(head), event.emoji) then None
    else
      var reactions := MirroredReactions(ReactionsOf(head), event);
      Some(if reactions != map[] then head[Reactions := Obj(reactions)] else head - {Reactions})
  }

  // ---------------------------------------------------------------- agreement

  lemma {:induction false} FilterOutAppend(a: seq<Json>, b: seq<Json>, user: Json)
    ensures FilterOut(a + b, user) == FilterOut(a, user) + FilterOut(b, user)
  {
    if a == [] {
      assert a + b == b;
    } else {
      assert (a + b)[1..] == a[1..] + b;
      FilterOutAppend(a[1..], b, user);
    }
  }

  /** Filtering from the left and from the right gives the same list in the same order. */
  lemma {:induction false} FilterOutIsWithout(users: seq<Json>, user: Json)
    ensures FilterOut(users, user) == Without(users, user)
  {
    if users != [] {
      var init, last := users[..|users| - 1], users[|users| - 1];
      assert users == init + [last] && [last][1..] == [];
      FilterOutAppend(init, [last], user);
      FilterOutIsWithout(init, user);
    }
  }

  /** One event does exactly what one AddReaction does, if and only if its emoji is a key already or no inherited name. */
  lemma MirrorsOne(head: Head, user: User, emoji: Emoji)
    requires HeadOk(head)
    ensures Mirrored(head, Event(user, emoji)) == Some(Reacted(head, user, emoji))
       <==> emoji in ReactionsOf(head) || emoji !in INHERITED
    ensures Mirrored(head, Event(user, emoji)) == None || Mirrored(head, Event(user, emoji)) == Some(Reacted(head, user, emoji))
  {
    FilterOutIsWithout(UsersOf(ReactionsOf(head), emoji), Str(user));
  }

  /** On a message without reactions the client throws on exactly twelve names. */
  lemma ThrowsOnTwelve(user: User, emoji: Emoji)
    ensures Mirrored(map[], Event(user, emoji)) == None
       <==> || emoji == "constructor" || emoji == "hasOwnProperty" || emoji == "isPrototypeOf"
            || emoji == "propertyIsEnumerable" || emoji == "toLocaleString" || emoji == "toString" || emoji == "valueOf"
            || emoji == "__proto__" || emoji == "__defineGetter__" || emoji == "__defineSetter__"
            || emoji == "__lookupGetter__" || emoji == "__lookupSetter__"
  {
  }

  /** What the server stores and the client fails on. */
  lemma ConstructorThrows(user: User)
    ensures Reacted(map[], user, "constructor") == map[Reactions := Obj(map["constructor" := Arr([Str(user)])])]
    ensures Mirrored(map[], Event(user, "constructor")) == None
  {
    assert Toggled([], Str(user)) == [Str(user)];
  }

  /** The react events that a session hears of, in commit order: every reaction but its own. */
  function BroadcastTo(own: nat, writes: seq<Write>): seq<Event> {
    if writes == [] then []
    else
      var init, last := writes[..|writes| - 1], writes[|writes| - 1];
      if last.React? && last.s != own then BroadcastTo(own, init) + [Event(last.user, last.emoji)]
      else BroadcastTo(own, init)
  }

  /** The writes without the reactions of the session itself. */
  function Heard(own: nat, writes: seq<Write>): seq<Write> {
    if writes == [] then []
    else
      var init, last := writes[..|writes| - 1], writes[|writes| - 1];
      if last.React? && last.s == own then Heard(own, init) else Heard(own, init) + [last]
  }

  /** The client's head after the events; None once one of them has thrown. */
  function Reduced(head: Head, events: seq<Event>): Option<Head> {
    if events == [] then Some(head)
    else
      match Reduced(head, events[..|events| - 1])
      case None => None
      case Some(h) => Mirrored(h, events[|events| - 1])
  }

  /** Some reaction names an inherited member that is no key after the writes before it. */
  predicate Trips(row: Message, writes: seq<Write>) {
    writes != []
    && var init, last := writes[..|writes| - 1], writes[|writes| - 1];
       Trips(row, init) || (last.React? && Throws(ReactionsOf(OrEmpty(Replay(row, init).head)), last.emoji))
  }

  ghost predicate SameReactions(h: Head, h': Head) {
    (Reactions in h <==> Reactions in h') && (Reactions in h ==> h[Reactions] == h'[Reactions])
  }

  /** Nothing but the reactions and the field's presence matters to a reaction. */
  lemma ReactedLocal(h: Head, h': Head, user: User, emoji: Emoji)
    requires SameReactions(h, h')
    ensures SameReactions(Reacted(h, user, emoji), Reacted(h', user, emoji))
  {
  }

  lemma {:induction false} ReplayHeadOk(row: Message, writes: seq<Write>)
    requires HeadOk(OrEmpty(row.head))
    ensures HeadOk(OrEmpty(Replay(row, writes).head))
  {
    if writes != [] {
      var init, last := writes[..|writes| - 1], writes[|writes| - 1];
      ReplayHeadOk(row, init);
      if last.React? {
        ReactedFlips(OrEmpty(Replay(row, init).head), last.user, last.emoji, last.user, last.emoji);
      }
    }
  }

  ghost predicate Follows(row: Message, writes: seq<Write>, client: Option<Head>) {
    match client
    case None => Trips(row, writes)
    case Some(h) => !Trips(row, writes) && SameReactions(OrEmpty(Replay(row, writes).head), h)
  }

  lemma FollowsReaction(row: Message, init: seq<Write>, client: Option<Head>, w: Write)
    requires HeadOk(OrEmpty(row.head)) && Follows(row, init, client) && w.React?
    ensures Follows(row, init + [w], match client case None => None case Some(h) => Mirrored(h, Event(w.user, w.emoji)))
  {
    assert (init + [w])[..|init|] == init;
    if client.Some? {
      var server := OrEmpty(Replay(row, init).head);
      ReplayHeadOk(row, init);
      MirrorsOne(client.value, w.user, w.emoji);
      ReactedLocal(server, client.value, w.user, w.emoji);
    }
  }

  lemma FollowsOther(row: Message, init: seq<Write>, client: Option<Head>, w: Write)
    requires Follows(row, init, client) && !w.React?
    ensures Follows(row, init + [w], client)
  {
    assert (init + [w])[..|init|] == init;
  }

  /** A client does to the head it fetched what the server would have done without this session's own reactions. */
  lemma {:induction false} FollowsHeard(row: Message, writes: seq<Write>, own: nat)
    requires HeadOk(OrEmpty(row.head))
    ensures Follows(row, Heard(own, writes), Reduced(OrEmpty(row.head), BroadcastTo(own, writes)))
  {
    if writes != [] {
      var init, last := writes[..|writes| - 1], writes[|writes| - 1];
      var client := Reduced(OrEmpty(row.head), BroadcastTo(own, init));
      FollowsHeard(row, init, own);
      if last.React? && last.s != own {
        var event := Event(last.user, last.emoji);
        assert (BroadcastTo(own, init) + [event])[..|BroadcastTo(own, init)|] == BroadcastTo(own, init);
        FollowsReaction(row, Heard(own, init), client, last);
      } else if !last.React? {
        FollowsOther(row, Heard(own, init), client, last);
      }
    }
  }

  // ---------------------------------------------------------------- a session's own reactions

  /** How often the session itself reacted so. */
  function OwnToggles(writes: seq<Write>, own: nat, user: User, emoji: Emoji): nat {
    if writes == [] then 0
    else
      var init, last := writes[..|writes| - 1], writes[|writes| - 1];
      OwnToggles(init, own, user, emoji)
        + if last.React? && last.s == own && last.user == user && last.emoji == emoji then 1 else 0
  }

  lemma {:induction false} TogglesSplit(writes: seq<Write>, own: nat, user: User, emoji: Emoji)
    ensures Toggles(writes, user, emoji) == Toggles(Heard(own, writes), user, emoji) + OwnToggles(writes, own, user, emoji)
  {
    if writes != [] {
      var init, last := writes[..|writes| - 1], writes[|writes| - 1];
      TogglesSplit(init, own, user, emoji);
      assert (Heard(own, init) + [last])[..|Heard(own, init)|] == Heard(own, init);
    }
  }

  ghost predicate Even(writes: seq<Write>, own: nat, user: User, emoji: Emoji) {
    OwnToggles(writes, own, user, emoji) % 2 == 0
  }

  ghost predicate Agree(h: Head, h': Head, user: User, emoji: Emoji) {
    Has(h, user, emoji) <==> Has(h', user, emoji)
  }

  lemma SameUsers(h: Head, h': Head, user: User, emoji: Emoji)
    requires SameReactions(h, h')
    ensures Agree(h, h', user, emoji)
  {
  }

  /** `all`, `heard` and `was`: is the user there after all toggles, after those that were heard, at the start. */
  lemma OddSum(was: bool, all: bool, heard: bool, a: nat, b: nat, sum: nat)
    requires sum == a + b && (all <==> was != (sum % 2 == 1)) && (heard <==> was != (a % 2 == 1))
    ensures (all <==> heard) <==> b % 2 == 0
  {
  }

  /** The server's head against the one it would have without this session's own reactions. */
  lemma OwnReactionsFlip(row: Message, writes: seq<Write>, own: nat, user: User, emoji: Emoji)
    ensures Agree(OrEmpty(Replay(row, writes).head), OrEmpty(Replay(row, Heard(own, writes)).head), user, emoji)
       <==> Even(writes, own, user, emoji)
  {
    var heard := Heard(own, writes);
    ReplayReactions(row, writes, user, emoji);
    ReplayReactions(row, heard, user, emoji);
    TogglesSplit(writes, own, user, emoji);
    OddSum(Has(OrEmpty(row.head), user, emoji), Has(OrEmpty(Replay(row, writes).head), user, emoji),
           Has(OrEmpty(Replay(row, heard).head), user, emoji),
           Toggles(heard, user, emoji), OwnToggles(writes, own, user, emoji), Toggles(writes, user, emoji));
  }

  /** The same users under the same emojis. */
  ghost predicate AllAgree(h: Head, h': Head) {
    forall user, emoji :: Agree(h, h', user, emoji)
  }

  lemma AgreeIffEven(row: Message, writes: seq<Write>, own: nat, client: Head, user: User, emoji: Emoji)
    requires SameReactions(OrEmpty(Replay(row, Heard(own, writes)).head), client)
    ensures Agree(OrEmpty(Replay(row, writes).head), client, user, emoji) <==> Even(writes, own, user, emoji)
  {
    OwnReactionsFlip(row, writes, own, user, emoji);
    SameUsers(OrEmpty(Replay(row, Heard(own, writes)).head), client, user, emoji);
  }

  lemma AllAgreeIffEven(row: Message, writes: seq<Write>, own: nat, client: Head)
    requires SameReactions(OrEmpty(Replay(row, Heard(own, writes)).head), client)
    ensures AllAgree(OrEmpty(Replay(row, writes).head), client) <==> forall user, emoji :: Even(writes, own, user, emoji)
  {
    var server := OrEmpty(Replay(row, writes).head);
    forall user, emoji ensures Agree(server, client, user, emoji) <==> Even(writes, own, user, emoji) {
      AgreeIffEven(row, writes, own, client, user, emoji);
    }
  }

  ghost predicate Silent(writes: seq<Write>, own: nat) {
    forall i :: 0 <= i < |writes| ==> !(writes[i].React? && writes[i].s == own)
  }

  lemma {:induction false} SilentHearsAll(writes: seq<Write>, own: nat)
    requires Silent(writes, own)
    ensures Heard(own, writes) == writes
  {
    if writes != [] {
      var init, last := writes[..|writes| - 1], writes[|writes| - 1];
      assert Silent(init, own) by {
        forall i | 0 <= i < |init| ensures !(init[i].React? && init[i].s == own) { assert init[i] == writes[i]; }
      }
      SilentHearsAll(init, own);
      assert writes == init + [last];
    }
  }

  /**
   A client that starts from the row it fetched and hears of reactions in commit order throws if
   and only if one that it hears of trips it.  Otherwise it shows the same users under the same
   emojis as the server if and only if its own session made each reaction an even number of
   times, for the server never tells it of those.  A session that made none has the server's
   reactions, lists in the same order, and lacks the field if and only if the server does.
   */
  lemma MirrorFollowsServer(row: Message, writes: seq<Write>, own: nat)
    requires HeadOk(OrEmpty(row.head))
    ensures
      var client, server := Reduced(OrEmpty(row.head), BroadcastTo(own, writes)), OrEmpty(Replay(row, writes).head);
      && (client == None <==> Trips(row, Heard(own, writes)))
      && (client.Some? ==>
            && (AllAgree(server, client.value) <==> forall user, emoji :: Even(writes, own, user, emoji))
            && (Silent(writes, own) ==> SameReactions(server, client.value)))
  {
    FollowsHeard(row, writes, own);
    var client := Reduced(OrEmpty(row.head), BroadcastTo(own, writes));
    if client.Some? {
      AllAgreeIffEven(row, writes, own, client.value);
      if Silent(writes, own) {
        SilentHearsAll(writes, own);
      }
    }
  }

  /** What a user sees of their own reaction in the session that made it: nothing. */
  lemma OwnReactionIsUnseen(row: Message, own: nat, user: User, emoji: Emoji, now: Time)
    requires JustSent(row)
    ensures
      var writes := [React(own, user, emoji, now)];
      && Reduced(OrEmpty(row.head), BroadcastTo(own, writes)) == Some(OrEmpty(row.head))
      && !Trips(row, Heard(own, writes))
      && !Has(OrEmpty(row.head), user, emoji) && Has(OrEmpty(Replay(row, writes).head), user, emoji)
  {
    var writes := [React(own, user, emoji, now)];
    assert writes[..0] == [];
    assert Heard(own, writes) == [] && BroadcastTo(own, writes) == [];
    assert Replay(row, writes) == Applied(row, writes[0]);
    ReactedFlips(OrEmpty(row.head), user, emoji, user, emoji);
  }

  // ---------------------------------------------------------------- any interleaving on the server

  /** Reactions are made by a session as the user it is logged in as. */
  ghost predicate ReactsAsItself(r: Race) {
    && (forall s :: s in r.points && r.points[s].Locked? ==> s in r.users && r.users[s] == r.points[s].user)
    && (forall i :: 0 <= i < |r.committed| && r.committed[i].React? ==>
          r.committed[i].s in r.users && r.users[r.committed[i].s] == r.committed[i].user)
  }

  lemma ReactsAsItselfStep(r: Race, step: Step)
    requires ReactsAsItself(r)
    ensures Next(r, step).users == r.users && ReactsAsItself(Next(r, step))
  {
    var next := Next(r, step);
    forall i | 0 <= i < |next.committed| && next.committed[i].React?
      ensures next.committed[i].s in r.users && r.users[next.committed[i].s] == next.committed[i].user
    {
      assert i < |r.committed| ==> next.committed[i] == r.committed[i];
    }
  }

  lemma {:induction false} ReactsAsItselfRun(row: Message, users: map<nat, User>, steps: seq<Step>)
    ensures RunFrom(Start(row, users), steps).users == users && ReactsAsItself(RunFrom(Start(row, users), steps))
  {
    if steps != [] {
      var r := RunFrom(Start(row, users), steps[..|steps| - 1]);
      ReactsAsItselfRun(row, users, steps[..|steps| - 1]);
      ReactsAsItselfStep(r, steps[|steps| - 1]);
    }
  }

  /** Nobody else reacts in this session. */
  lemma {:induction false} OnlyOwnUser(users: map<nat, User>, writes: seq<Write>, own: nat, user: User, emoji: Emoji)
    requires forall i :: 0 <= i < |writes| && writes[i].React? ==> writes[i].s in users && users[writes[i].s] == writes[i].user
    requires own !in users || users[own] != user
    ensures OwnToggles(writes, own, user, emoji) == 0
  {
    if writes != [] {
      var init, last := writes[..|writes| - 1], writes[|writes| - 1];
      forall i | 0 <= i < |init| && init[i].React? ensures init[i].s in users && users[init[i].s] == init[i].user {
        assert init[i] == writes[i];
      }
      OnlyOwnUser(users, init, own, user, emoji);
    }
  }

  /** The same for every interleaving of sessions on the server, where a session reacts as one user only. */
  lemma MirrorFollowsRace(row: Message, users: map<nat, User>, steps: seq<Step>, own: nat)
    requires HeadOk(OrEmpty(row.head)) && own in users
    ensures
      var r := RunFrom(Start(row, users), steps);
      var client, server := Reduced(OrEmpty(row.head), BroadcastTo(own, r.committed)), OrEmpty(r.row.head);
      && (client == None <==> Trips(row, Heard(own, r.committed)))
      && (client.Some? ==>
            && (AllAgree(server, client.value) <==> forall emoji :: Even(r.committed, own, users[own], emoji))
            && (Silent(r.committed, own) ==> SameReactions(server, client.value)))
  {
    var writes := RunFrom(Start(row, users), steps).committed;
    Serial(row, users, steps);
    MirrorFollowsServer(row, writes, own);
    ReactsAsItselfRun(row, users, steps);
    forall user, emoji | user != users[own] ensures Even(writes, own, user, emoji) {
      OnlyOwnUser(users, writes, own, user, emoji);
    }
  }

  // ---------------------------------------------------------------- from the sending on

  predicate ReactsWith(writes: seq<Write>, emoji: Emoji) {
    exists i :: 0 <= i < |writes| && writes[i].React? && writes[i].emoji == emoji
  }

  /** Some session other than this one reacts with the emoji. */
  predicate OtherReactsWith(writes: seq<Write>, own: nat, emoji: Emoji) {
    exists i :: 0 <= i < |writes| && writes[i].React? && writes[i].s != own && writes[i].emoji == emoji
  }

  lemma ReactsWithSnoc(init: seq<Write>, w: Write, emoji: Emoji)
    ensures ReactsWith(init + [w], emoji) <==> ReactsWith(init, emoji) || (w.React? && w.emoji == emoji)
  {
    if i :| 0 <= i < |init| && init[i].React? && init[i].emoji == emoji {
      assert (init + [w])[i] == init[i];
    }
    assert (init + [w])[|init|] == w;
  }

  lemma OtherReactsWithSnoc(init: seq<Write>, w: Write, own: nat, emoji: Emoji)
    ensures OtherReactsWith(init + [w], own, emoji)
       <==> OtherReactsWith(init, own, emoji) || (w.React? && w.s != own && w.emoji == emoji)
  {
    if i :| 0 <= i < |init| && init[i].React? && init[i].s != own && init[i].emoji == emoji {
      assert (init + [w])[i] == init[i];
    }
    assert (init + [w])[|init|] == w;
  }

  lemma {:induction false} HeardReactions(writes: seq<Write>, own: nat, emoji: Emoji)
    ensures ReactsWith(Heard(own, writes), emoji) <==> OtherReactsWith(writes, own, emoji)
  {
    if writes != [] {
      var init, last := writes[..|writes| - 1], writes[|writes| - 1];
      HeardReactions(init, own, emoji);
      OtherReactsWithSnoc(init, last, own, emoji);
      ReactsWithSnoc(Heard(own, init), last, emoji);
      assert writes == init + [last];
    }
  }

  lemma AppliedKeys(m: Message, w: Write, emoji: Emoji)
    requires emoji in ReactionsOf(OrEmpty(Applied(m, w).head))
    ensures emoji in ReactionsOf(OrEmpty(m.head)) || (w.React? && w.emoji == emoji)
  {
  }

  /** Every key of the reactions was once reacted with. */
  lemma {:induction false} KeysWereReacted(row: Message, writes: seq<Write>, emoji: Emoji)
    requires JustSent(row) && emoji in ReactionsOf(OrEmpty(Replay(row, writes).head))
    ensures ReactsWith(writes, emoji)
  {
    if writes != [] {
      var init, last := writes[..|writes| - 1], writes[|writes| - 1];
      assert writes == init + [last];
      ReactsWithSnoc(init, last, emoji);
      AppliedKeys(Replay(row, init), last, emoji);
      if emoji in ReactionsOf(OrEmpty(Replay(row, init).head)) {
        KeysWereReacted(row, init, emoji);
      }
    }
  }

  lemma {:induction false} TripsOnName(row: Message, writes: seq<Write>)
    requires JustSent(row)
    ensures Trips(row, writes) <==> exists emoji :: emoji in INHERITED && ReactsWith(writes, emoji)
  {
    if writes != [] {
      var init, last := writes[..|writes| - 1], writes[|writes| - 1];
      assert writes == init + [last];
      TripsOnName(row, init);
      forall emoji ensures ReactsWith(writes, emoji) <==> ReactsWith(init, emoji) || (last.React? && last.emoji == emoji) {
        ReactsWithSnoc(init, last, emoji);
      }
      if last.React? && last.emoji in INHERITED && last.emoji in ReactionsOf(OrEmpty(Replay(row, init).head)) {
        KeysWereReacted(row, init, last.emoji);
      }
    }
  }

  /** For a message followed from its sending, the client throws exactly if another session reacts with an inherited name. */
  lemma TripsOnInheritedName(row: Message, writes: seq<Write>, own: nat)
    requires JustSent(row)
    ensures Reduced(OrEmpty(row.head), BroadcastTo(own, writes)) == None
       <==> exists emoji :: emoji in INHERITED && OtherReactsWith(writes, own, emoji)
  {
    FollowsHeard(row, writes, own);
    TripsOnName(row, Heard(own, writes));
    forall emoji ensures ReactsWith(Heard(own, writes), emoji) <==> OtherReactsWith(writes, own, emoji) {
      HeardReactions(writes, own, emoji);
    }
  }
}
