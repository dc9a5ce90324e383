/**
 Sessions that edit, react to and unsend one message side by side.

 handleEdit reads the edit count and writes later; AddReaction reads the head under a row lock
 and writes it back before it lets go.  Plain reads do not wait for the lock; writes do.
 */
module RowRace {
  import opened Prelude
  import opened Heads
  import opened Messages

  const EDIT_WINDOW: Time := 15 * 60 * SECOND
  const MAX_EDITS := 10

  datatype Point = Fetched | Counted | Locked(user: User, emoji: Emoji, head: Head)

  /** A committed write; a reaction with the session that made it. */
  datatype Write =
    | Edit(content: Content, now: Time)
    | React(s: nat, user: User, emoji: Emoji, now: Time)
    | Unsend(now: Time)
    | Delete(now: Time)

  datatype Race = Race(row: Message, users: map<nat, User>, points: map<nat, Point>, lock: Option<nat>, committed: seq<Write>)

  datatype Step =
    | FetchForEdit(s: nat, now: Time)
    | CheckCount(s: nat)
    | WriteEdit(s: nat, content: Content, now: Time)
    | LockForReaction(s: nat, emoji: Emoji)
    | CommitReaction(s: nat, now: Time)
    | GiveUp(s: nat)
    | WriteUnsend(now: Time)
    | WriteDelete(now: Time)

  function Applied(m: Message, w: Write): Message {
    match w
    case Edit(content, now) => RowEdited(m, content, now)
    case React(_, user, emoji, now) => RowReacted(m, user, emoji, now)
    case Unsend(now) => RowUnsent(m, now)
    case Delete(now) => RowDeleted(m, now)
  }

  function At(r: Race, s: nat): Option<Point> {
    if s in r.points then Some(r.points[s]) else None
  }

  function Commit(r: Race, w: Write): Race {
    r.(row := Applied(r.row, w), committed := r.committed + [w])
  }

  function Next(r: Race, step: Step): Race {
    match step
    case FetchForEdit(s, now) =>
      if At(r, s) == None && s in r.users && r.users[s] == r.row.from && now - r.row.createdAt <= EDIT_WINDOW
      then r.(points := r.points[s := Fetched]) else r
    case CheckCount(s) =>
      if At(r, s) != Some(Fetched) then r
      else if CountOf(OrEmpty(r.row.head)) >= MAX_EDITS then r.(points := r.points - {s})
      else r.(points := r.points[s := Counted])
    case WriteEdit(s, content, now) =>
      if At(r, s) != Some(Counted) || r.lock.Some? then r
      else Commit(r, Edit(content, now)).(points := r.points - {s})
    case LockForReaction(s, emoji) =>
      if At(r, s) != None || s !in r.users || r.lock.Some? then r
      else r.(points := r.points[s := Locked(r.users[s], emoji, OrEmpty(r.row.head))], lock := Some(s))
    case CommitReaction(s, now) =>
      if r.lock != Some(s) || s !in r.points || !r.points[s].Locked? || !Storable(r.points[s].emoji) then r
      else
        // the head written back is computed from the one that was read under the lock
        var Locked(user, emoji, head) := r.points[s];
        Race(r.row.(updatedAt := now, head := Some(Reacted(head, user, emoji))), r.users, r.points - {s}, None,
             r.committed + [React(s, user, emoji, now)])
    case GiveUp(s) => r.(points := r.points - {s}, lock := if r.lock == Some(s) then None else r.lock)
    case WriteUnsend(now) => if r.lock.Some? then r else Commit(r, Unsend(now))
    case WriteDelete(now) => if r.lock.Some? then r else Commit(r, Delete(now))
  }

  function Start(row: Message, users: map<nat, User>): Race {
    Race(row, users, map[], None, [])
  }

  function RunFrom(r: Race, steps: seq<Step>): Race {
    if steps == [] then r else Next(RunFrom(r, steps[..|steps| - 1]), steps[|steps| - 1])
  }

  // ---------------------------------------------------------------- no update is lost

  /** The committed writes performed one at a time. */
  function Replay(row: Message, writes: seq<Write>): Message {
    if writes == [] then row else Applied(Replay(row, writes[..|writes| - 1]), writes[|writes| - 1])
  }

  /** The lock holder still has the current head in its hands. */
  ghost predicate LockOk(r: Race) {
    r.lock.Some? && At(r, r.lock.value) != None && r.points[r.lock.value].Locked? ==>
      r.points[r.lock.value].head == OrEmpty(r.row.head)
  }

  lemma LockStep(r: Race, step: Step)
    requires LockOk(r)
    ensures LockOk(Next(r, step))
    ensures (Next(r, step).committed == r.committed && Next(r, step).row == r.row)
         || (exists w :: Next(r, step).committed == r.committed + [w] && Next(r, step).row == Applied(r.row, w))
  {
    var next := Next(r, step);
    match step
    case WriteEdit(_, content, now) =>
      if next.committed != r.committed {
        assert next.committed == r.committed + [Edit(content, now)];
      }
    case CommitReaction(s, now) =>
      if next.committed != r.committed {
        assert next.committed == r.committed + [React(s, r.points[s].user, r.points[s].emoji, now)];
      }
    case WriteUnsend(now) => if next.committed != r.committed { assert next.committed == r.committed + [Unsend(now)]; }
    case WriteDelete(now) => if next.committed != r.committed { assert next.committed == r.committed + [Delete(now)]; }
    case _ =>
  }

  /** Whatever the interleaving, the row is what the committed writes make of it in commit order. */
  lemma {:induction false} Serial(row: Message, users: map<nat, User>, steps: seq<Step>)
    ensures RunFrom(Start(row, users), steps).row == Replay(row, RunFrom(Start(row, users), steps).committed)
    ensures LockOk(RunFrom(Start(row, users), steps))
  {
    if steps != [] {
      var r, step := RunFrom(Start(row, users), steps[..|steps| - 1]), steps[|steps| - 1];
      Serial(row, users, steps[..|steps| - 1]);
      LockStep(r, step);
      var next := Next(r, step);
      if next.committed != r.committed {
        assert next.committed[..|next.committed| - 1] == r.committed;
      }
    }
  }

  // ---------------------------------------------------------------- left alone

  lemma PutBack(points: map<nat, Point>, s: nat, to: Point, next: Point)
    requires s !in points
    ensures points[s := to] - {s} == points && points[s := to][s := next] == points[s := next]
  {
  }

  /** A reaction with nothing in between is stored, unless its emoji has the character NUL. */
  lemma ReactionAlone(r: Race, s: nat, emoji: Emoji, now: Time)
    requires s !in r.points && s in r.users && r.lock == None
    ensures
      var (user, locked) := (r.users[s], Next(r, LockForReaction(s, emoji)));
      && Next(locked, GiveUp(s)) == r
      && Next(locked, CommitReaction(s, now))
         == if '\0' in emoji then locked
            else r.(row := r.row.(updatedAt := now, head := Some(Reacted(OrEmpty(r.row.head), user, emoji))),
                    committed := r.committed + [React(s, user, emoji, now)])
  {
    var to := Locked(r.users[s], emoji, OrEmpty(r.row.head));
    PutBack(r.points, s, to, to);
  }

  /** An unsend and a deletion take effect at once, unless they have to wait for a reaction. */
  lemma WithdrawalAlone(r: Race, now: Time)
    ensures Next(r, WriteUnsend(now))
         == if r.lock != None then r
            else r.(row := r.row.(deletedAt := Some(now), updatedAt := now,
                                  head := Some(OrEmpty(r.row.head)[Unsent := Bool(true)])),
                    committed := r.committed + [Unsend(now)])
    ensures Next(r, WriteDelete(now))
         == if r.lock != None then r
            else r.(row := r.row.(deletedAt := Some(now), updatedAt := now), committed := r.committed + [Delete(now)])
  {
    var h := OrEmpty(r.row.head);
    assert h + map[Unsent := Bool(true)] == h[Unsent := Bool(true)];
  }

  /** Not a step of this session. */
  predicate OfOthers(step: Step, s: nat) {
    match step
    case FetchForEdit(s', _) => s' != s
    case CheckCount(s') => s' != s
    case WriteEdit(s', _, _) => s' != s
    case LockForReaction(s', _) => s' != s
    case CommitReaction(s', _) => s' != s
    case GiveUp(s') => s' != s
    case WriteUnsend(_) => true
    case WriteDelete(_) => true
  }

  /** While a session has the row locked for its reaction, nobody else writes to it or takes the lock. */
  lemma {:induction false} HolderKeeps(r: Race, steps: seq<Step>, s: nat)
    requires r.lock == Some(s) && s in r.points && forall step :: step in steps ==> OfOthers(step, s)
    ensures
      var r' := RunFrom(r, steps);
      && r'.lock == Some(s) && s in r'.points && r'.points[s] == r.points[s]
      && r'.row == r.row && r'.users == r.users && r'.committed == r.committed
  {
    if steps != [] {
      var init, last := steps[..|steps| - 1], steps[|steps| - 1];
      assert steps == init + [last];
      HolderKeeps(r, init, s);
      assert OfOthers(last, s);
    }
  }

  /**
   A reaction that has locked the row is committed on the head it has read there, whatever the other
   sessions try in between.
   */
  lemma HolderCommits(r: Race, steps: seq<Step>, s: nat, emoji: Emoji, now: Time)
    requires s !in r.points && s in r.users && r.lock == None && '\0' !in emoji
    requires forall step :: step in steps ==> OfOthers(step, s)
    ensures
      var (user, after) := (r.users[s], Next(RunFrom(Next(r, LockForReaction(s, emoji)), steps), CommitReaction(s, now)));
      && after.row == r.row.(updatedAt := now, head := Some(Reacted(OrEmpty(r.row.head), user, emoji)))
      && after.committed == r.committed + [React(s, user, emoji, now)] && after.lock == None
  {
    HolderKeeps(Next(r, LockForReaction(s, emoji)), steps, s);
  }

  lemma {:induction false} LockedByUser(row: Message, users: map<nat, User>, steps: seq<Step>)
    ensures
      var r := RunFrom(Start(row, users), steps);
      r.users == users && forall s :: s in r.points && r.points[s].Locked? ==> s in users && r.points[s].user == users[s]
  {
    if steps != [] {
      LockedByUser(row, users, steps[..|steps| - 1]);
    }
  }

  /** A reaction that is committed is that of the session's own user, and has no NUL in its emoji. */
  lemma {:induction false} CommittedReaction(row: Message, users: map<nat, User>, steps: seq<Step>, w: Write)
    requires w in RunFrom(Start(row, users), steps).committed && w.React?
    ensures w.s in users && w.user == users[w.s] && '\0' !in w.emoji
  {
    assert steps != [];
    var init := steps[..|steps| - 1];
    LockedByUser(row, users, init);
    if w in RunFrom(Start(row, users), init).committed {
      CommittedReaction(row, users, init, w);
    }
  }

  // ---------------------------------------------------------------- what the committed writes say

  predicate Withdrawn(writes: seq<Write>) {
    writes != [] && (writes[|writes| - 1].Unsend? || writes[|writes| - 1].Delete? || Withdrawn(writes[..|writes| - 1]))
  }

  /** The edits committed before the message was unsent or deleted. */
  function LiveEdits(writes: seq<Write>): seq<Content> {
    if writes == [] then []
    else
      var init, last := writes[..|writes| - 1], writes[|writes| - 1];
      if last.Edit? && !Withdrawn(init) then LiveEdits(init) + [last.content] else LiveEdits(init)
  }

  function Toggles(writes: seq<Write>, user: User, emoji: Emoji): nat {
    if writes == [] then 0
    else
      var init, last := writes[..|writes| - 1], writes[|writes| - 1];
      Toggles(init, user, emoji) + if last.React? && last.user == user && last.emoji == emoji then 1 else 0
  }

  const SERVER_FIELDS := {Reactions, EditCount, EditedAt, Unsent}

  /** As handleSend leaves it: none of the fields that later writes add. */
  ghost predicate JustSent(row: Message) {
    row.deletedAt == None && OrEmpty(row.head).Keys !! SERVER_FIELDS
  }

  /** Everything the row owes to the committed writes, and everything it keeps. */
  ghost predicate Accounts(row: Message, writes: seq<Write>, now: Message) {
    var h := OrEmpty(now.head);
    && CountOf(h) == |LiveEdits(writes)|
    && now.content == (if LiveEdits(writes) == [] then row.content else LiveEdits(writes)[|LiveEdits(writes)| - 1])
    && now.deletedAt.Some? == Withdrawn(writes)
    && h - SERVER_FIELDS == OrEmpty(row.head)
    && HeadOk(h)
    && now.from == row.from && now.createdAt == row.createdAt
  }

  lemma {:induction false} ReplayAccounts(row: Message, writes: seq<Write>)
    requires JustSent(row)
    ensures Accounts(row, writes, Replay(row, writes))
  {
    if writes == [] {
      assert OrEmpty(row.head) - SERVER_FIELDS == OrEmpty(row.head);
    } else {
      var init, last := writes[..|writes| - 1], writes[|writes| - 1];
      ReplayAccounts(row, init);
      AppliedAccounts(row, init, Replay(row, init), last);
      assert writes == init + [last];
    }
  }

  lemma OtherFieldsAgree(h: Head, h': Head)
    requires h - {Reactions} == h' - {Reactions}
    ensures h - SERVER_FIELDS == h' - SERVER_FIELDS && CountOf(h) == CountOf(h')
  {
    assert forall f :: f in h && f != Reactions <==> f in h - {Reactions};
    assert forall f :: f in h' && f != Reactions <==> f in h' - {Reactions};
    assert forall f :: f in h && f != Reactions ==> h[f] == (h - {Reactions})[f] == h'[f];
  }

  lemma AppliedAccounts(row: Message, writes: seq<Write>, now: Message, w: Write)
    requires Accounts(row, writes, now)
    ensures Accounts(row, writes + [w], Applied(now, w))
  {
    assert (writes + [w])[..|writes|] == writes;
    var h, h' := OrEmpty(now.head), OrEmpty(Applied(now, w).head);
    if w.React? {
      ReactedFlips(h, w.user, w.emoji, w.user, w.emoji);
      OtherFieldsAgree(h, h');
    } else {
      assert h' - SERVER_FIELDS == h - SERVER_FIELDS;
      assert Reactions in h' <==> Reactions in h;
    }
  }

  // ---------------------------------------------------------------- when it was written

  /** The time of the last write that took effect: an edit does not once the message is withdrawn. */
  function LastWrite(writes: seq<Write>): Option<Time> {
    if writes == [] then None
    else
      var init, last := writes[..|writes| - 1], writes[|writes| - 1];
      if last.Edit? && Withdrawn(init) then LastWrite(init) else Some(last.now)
  }

  function LastLiveEdit(writes: seq<Write>): Option<Time> {
    if writes == [] then None
    else
      var init, last := writes[..|writes| - 1], writes[|writes| - 1];
      if last.Edit? && !Withdrawn(init) then Some(last.now) else LastLiveEdit(init)
  }

  function LastWithdrawal(writes: seq<Write>): Option<Time> {
    if writes == [] then None
    else
      var init, last := writes[..|writes| - 1], writes[|writes| - 1];
      if last.Unsend? || last.Delete? then Some(last.now) else LastWithdrawal(init)
  }

  ghost predicate WasUnsent(writes: seq<Write>) {
    writes != [] && (writes[|writes| - 1].Unsend? || WasUnsent(writes[..|writes| - 1]))
  }

  /** The stamps of the row, and the marks in its head that are no reactions. */
  ghost predicate Stamps(row: Message, writes: seq<Write>, now: Message) {
    var h := OrEmpty(now.head);
    && now.updatedAt == (match LastWrite(writes) case None => row.updatedAt case Some(at) => at)
    && now.deletedAt == LastWithdrawal(writes)
    && (EditedAt in h <==> LastLiveEdit(writes).Some?)
    && (EditedAt in h ==> h[EditedAt] == Stamp(LastLiveEdit(writes).value))
    && (Unsent in h <==> WasUnsent(writes))
    && (Unsent in h ==> h[Unsent] == Bool(true))
    && now.viewOnce == row.viewOnce && now.viewOnceTTL == row.viewOnceTTL
  }

  lemma ReactedMarks(h: Head, user: User, emoji: Emoji, f: Field)
    requires f != Reactions
    ensures f in Reacted(h, user, emoji) <==> f in h
    ensures f in h ==> Reacted(h, user, emoji)[f] == h[f]
  {
    var rest := Reacted(h, user, emoji) - {Reactions};
    ReactedFlips(h, user, emoji, user, emoji);
    assert f in rest <==> f in Reacted(h, user, emoji);
    assert f in h - {Reactions} <==> f in h;
    assert f in h ==> rest[f] == (h - {Reactions})[f];
  }

  lemma AppliedStamps(row: Message, init: seq<Write>, now: Message, w: Write)
    requires Stamps(row, init, now) && (now.deletedAt.Some? <==> Withdrawn(init))
    ensures Stamps(row, init + [w], Applied(now, w))
  {
    assert (init + [w])[..|init|] == init;
    if w.React? {
      ReactedMarks(OrEmpty(now.head), w.user, w.emoji, EditedAt);
      ReactedMarks(OrEmpty(now.head), w.user, w.emoji, Unsent);
    }
  }

  /** updated_at, deleted_at and the marks in the head carry the times of the writes that made them. */
  lemma {:induction false} ReplayStamps(row: Message, writes: seq<Write>)
    requires JustSent(row)
    ensures Stamps(row, writes, Replay(row, writes))
  {
    if writes != [] {
      var init, last := writes[..|writes| - 1], writes[|writes| - 1];
      ReplayStamps(row, init);
      ReplayAccounts(row, init);
      AppliedStamps(row, init, Replay(row, init), last);
      assert writes == init + [last];
    }
  }

  lemma AppliedReactions(m: Message, w: Write, user: User, emoji: Emoji)
    ensures Has(OrEmpty(Applied(m, w).head), user, emoji)
       <==> Has(OrEmpty(m.head), user, emoji) != (w.React? && w.user == user && w.emoji == emoji)
  {
    if w.React? {
      ReactedFlips(OrEmpty(m.head), w.user, w.emoji, user, emoji);
    } else {
      assert ReactionsOf(OrEmpty(Applied(m, w).head)) == ReactionsOf(OrEmpty(m.head));
    }
  }

  /** `was`, `before` and `now`: is the user there at the start, after n toggles, and after one more write. */
  lemma OneMoreToggle(was: bool, before: bool, now: bool, toggles: bool, n: nat, sum: nat)
    requires (before <==> was != (n % 2 == 1)) && (now <==> before != toggles) && sum == n + if toggles then 1 else 0
    ensures now <==> was != (sum % 2 == 1)
  {
  }

  /** Each toggle flips the pair, whatever the head held at the start. */
  lemma {:induction false} ReplayReactions(row: Message, writes: seq<Write>, user: User, emoji: Emoji)
    ensures Has(OrEmpty(Replay(row, writes).head), user, emoji)
       <==> Has(OrEmpty(row.head), user, emoji) != (Toggles(writes, user, emoji) % 2 == 1)
  {
    if writes != [] {
      var init, last := writes[..|writes| - 1], writes[|writes| - 1];
      ReplayReactions(row, init, user, emoji);
      AppliedReactions(Replay(row, init), last, user, emoji);
      OneMoreToggle(Has(OrEmpty(row.head), user, emoji), Has(OrEmpty(Replay(row, init).head), user, emoji),
                    Has(OrEmpty(Replay(row, writes).head), user, emoji),
                    last.React? && last.user == user && last.emoji == emoji,
                    Toggles(init, user, emoji), Toggles(writes, user, emoji));
    }
  }

  /**
   No committed write is lost or half applied in any interleaving: the edit count is the number
   of edits made before the message was withdrawn, the content is the last of them, a user is
   under an emoji iff the pair was toggled an odd number of times, and all other fields survive.
   */
  lemma NoLostUpdate(row: Message, users: map<nat, User>, steps: seq<Step>, user: User, emoji: Emoji)
    requires JustSent(row)
    ensures
      var r := RunFrom(Start(row, users), steps);
      && Accounts(row, r.committed, r.row)
      && (Has(OrEmpty(r.row.head), user, emoji) <==> Toggles(r.committed, user, emoji) % 2 == 1)
  {
    var r := RunFrom(Start(row, users), steps);
    Serial(row, users, steps);
    ReplayAccounts(row, r.committed);
    ReplayReactions(row, r.committed, user, emoji);
  }

  /** Once the message is withdrawn its content never changes again. */
  lemma {:induction false} WithdrawnContent(r: Race, steps: seq<Step>)
    requires r.row.deletedAt.Some?
    ensures RunFrom(r, steps).row.deletedAt.Some? && RunFrom(r, steps).row.content == r.row.content
  {
    if steps != [] {
      WithdrawnContent(r, steps[..|steps| - 1]);
    }
  }
}
