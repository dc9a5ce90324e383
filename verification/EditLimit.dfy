/**
 The limit of ten edits under concurrent editing.  Because handleEdit checks the count before
 it writes, K sessions of the author can overshoot it, by K - 1 and no more.
 */
module EditLimit {
  import opened Prelude
  import opened Heads
  import opened Messages
  import opened RowRace

  /** The sessions that are logged in as the author of the message. */
  ghost function Authors(users: map<nat, User>, author: User): set<nat> {
    set s | s in users && users[s] == author
  }

  /** The sessions that have passed the check and not yet written. */
  ghost function Ahead(r: Race): set<nat> {
    set s | s in r.points && r.points[s] == Counted
  }

  ghost predicate BoundOk(r: Race) {
    && (forall s :: s in r.points && !r.points[s].Locked? ==> s in Authors(r.users, r.row.from))
    && CountOf(OrEmpty(r.row.head)) + |Ahead(r)| <= MAX_EDITS - 1 + |Authors(r.users, r.row.from)|
  }

  lemma SmallerSet(a: set<nat>, b: set<nat>)
    requires a <= b
    ensures |a| <= |b|
  {
    assert b == a + (b - a);
  }

  lemma ReactKeepsCount(h: Head, user: User, emoji: Emoji)
    ensures CountOf(Reacted(h, user, emoji)) == CountOf(h)
  {
    ReactedFlips(h, user, emoji, user, emoji);
    OtherFieldsAgree(h, Reacted(h, user, emoji));
  }

  lemma CheckCountBound(r: Race, s: nat)
    requires BoundOk(r)
    ensures BoundOk(Next(r, CheckCount(s)))
  {
    if At(r, s) == Some(Fetched) {
      var next, authors := Next(r, CheckCount(s)), Authors(r.users, r.row.from);
      if CountOf(OrEmpty(r.row.head)) < MAX_EDITS {
        assert Ahead(next) == Ahead(r) + {s};
        assert s in authors;
        assert Ahead(next) <= authors;
        SmallerSet(Ahead(next), authors);
      } else {
        assert Ahead(next) == Ahead(r);
      }
    }
  }

  lemma WriteEditBound(r: Race, s: nat, content: Content, now: Time)
    requires BoundOk(r)
    ensures BoundOk(Next(r, WriteEdit(s, content, now)))
  {
    var next := Next(r, WriteEdit(s, content, now));
    if next != r { assert Ahead(next) == Ahead(r) - {s}; }
  }

  lemma GiveUpBound(r: Race, s: nat)
    requires BoundOk(r)
    ensures BoundOk(Next(r, GiveUp(s)))
  {
    var next := Next(r, GiveUp(s));
    assert next.row == r.row && next.users == r.users;
    assert forall k :: k in next.points ==> k in r.points && next.points[k] == r.points[k];
    assert Ahead(next) <= Ahead(r);
    SmallerSet(Ahead(next), Ahead(r));
  }

  lemma FetchBound(r: Race, s: nat, now: Time)
    requires BoundOk(r)
    ensures BoundOk(Next(r, FetchForEdit(s, now)))
  {
    assert Ahead(Next(r, FetchForEdit(s, now))) == Ahead(r);
  }

  /** A step of a reaction or another statement: the count and who is ahead stay. */
  lemma OtherBound(r: Race, step: Step)
    requires BoundOk(r) && LockOk(r) && (step.LockForReaction? || step.CommitReaction? || step.WriteUnsend? || step.WriteDelete?)
    ensures BoundOk(Next(r, step))
  {
    var next := Next(r, step);
    assert Ahead(next) == Ahead(r);
    if step.CommitReaction? && next != r {
      ReactKeepsCount(OrEmpty(r.row.head), r.points[step.s].user, r.points[step.s].emoji);
    }
  }

  lemma FrameStep(r: Race, step: Step)
    ensures Next(r, step).users == r.users && Next(r, step).row.from == r.row.from
  {
  }

  lemma BoundStep(r: Race, step: Step)
    requires BoundOk(r) && LockOk(r)
    ensures BoundOk(Next(r, step))
  {
    match step
    case FetchForEdit(s, now) => FetchBound(r, s, now);
    case CheckCount(s) => CheckCountBound(r, s);
    case WriteEdit(s, content, now) => WriteEditBound(r, s, content, now);
    case GiveUp(s) => GiveUpBound(r, s);
    case _ => OtherBound(r, step);
  }

  lemma {:induction false} BoundRun(row: Message, users: map<nat, User>, steps: seq<Step>)
    requires JustSent(row)
    ensures BoundOk(RunFrom(Start(row, users), steps))
    ensures RunFrom(Start(row, users), steps).users == users && RunFrom(Start(row, users), steps).row.from == row.from
  {
    if steps == [] {
      assert Ahead(Start(row, users)) == {};
    } else {
      BoundRun(row, users, steps[..|steps| - 1]);
      Serial(row, users, steps[..|steps| - 1]);
      BoundStep(RunFrom(Start(row, users), steps[..|steps| - 1]), steps[|steps| - 1]);
      FrameStep(RunFrom(Start(row, users), steps[..|steps| - 1]), steps[|steps| - 1]);
    }
  }

  function EditsAfter(row: Message, users: map<nat, User>, steps: seq<Step>): int {
    CountOf(OrEmpty(RunFrom(Start(row, users), steps).row.head))
  }

  /** In every interleaving with reactions, unsends and other edits, edit_count stays within 9 + K. */
  lemma EditCountBound(row: Message, users: map<nat, User>, steps: seq<Step>)
    requires JustSent(row)
    ensures EditsAfter(row, users, steps) <= 9 + |Authors(users, row.from)|
  {
    BoundRun(row, users, steps);
  }

  // ---------------------------------------------------------------- the bound is reached

  ghost function AllCounted(ahead: set<nat>): map<nat, Point> {
    map s | s in ahead :: Counted
  }

  /** Exactly the sessions in `ahead` have checked, and `count` edits have been written. */
  ghost predicate Poised(r: Race, users: map<nat, User>, author: User, ahead: set<nat>, count: int) {
    && r.users == users && r.row.from == author && r.points == AllCounted(ahead) && r.lock == None
    && r.row.deletedAt == None && CountOf(OrEmpty(r.row.head)) == count
  }

  lemma RunSnoc(r: Race, steps: seq<Step>, step: Step)
    ensures RunFrom(r, steps + [step]) == Next(RunFrom(r, steps), step)
  {
    assert (steps + [step])[..|steps|] == steps;
  }

  lemma Check(r: Race, users: map<nat, User>, author: User, ahead: set<nat>, count: int, s: nat)
    requires Poised(r, users, author, ahead, count) && s in Authors(users, author) - ahead && count < MAX_EDITS
    ensures Poised(Next(Next(r, FetchForEdit(s, r.row.createdAt)), CheckCount(s)), users, author, ahead + {s}, count)
  {
    assert Next(r, FetchForEdit(s, r.row.createdAt)) == r.(points := r.points[s := Fetched]);
    assert r.points[s := Fetched][s := Counted] == AllCounted(ahead + {s});
  }

  lemma Write(r: Race, users: map<nat, User>, author: User, ahead: set<nat>, count: int, s: nat)
    requires Poised(r, users, author, ahead, count) && s in ahead
    ensures Poised(Next(r, WriteEdit(s, [], 0)), users, author, ahead - {s}, count + 1)
  {
    FrameStep(r, WriteEdit(s, [], 0));
    assert r.points - {s} == AllCounted(ahead - {s});
  }

  /** The sessions in `more` check one after the other, and none of them writes yet. */
  lemma {:induction false} CheckAll(r: Race, steps: seq<Step>, users: map<nat, User>, author: User, count: int, more: set<nat>)
    returns (all: seq<Step>)
    requires Poised(RunFrom(r, steps), users, author, {}, count) && more <= Authors(users, author) && count < MAX_EDITS
    ensures Poised(RunFrom(r, all), users, author, more, count)
  {
    all := steps;
    if more != {} {
      var s :| s in more;
      var init := CheckAll(r, steps, users, author, count, more - {s});
      var fetch, check := FetchForEdit(s, RunFrom(r, init).row.createdAt), CheckCount(s);
      Check(RunFrom(r, init), users, author, more - {s}, count, s);
      RunSnoc(r, init, fetch);
      RunSnoc(r, init + [fetch], check);
      all := init + [fetch] + [check];
      assert more - {s} + {s} == more;
    }
  }

  /** All the sessions that are ahead write. */
  lemma {:induction false} WriteAll(r: Race, steps: seq<Step>, users: map<nat, User>, author: User, count: int, ahead: set<nat>)
    returns (all: seq<Step>)
    requires Poised(RunFrom(r, steps), users, author, ahead, count)
    ensures Poised(RunFrom(r, all), users, author, {}, count + |ahead|)
    decreases ahead
  {
    all := steps;
    if ahead != {} {
      var s :| s in ahead;
      Write(RunFrom(r, steps), users, author, ahead, count, s);
      RunSnoc(r, steps, WriteEdit(s, [], 0));
      all := WriteAll(r, steps + [WriteEdit(s, [], 0)], users, author, count + 1, ahead - {s});
    }
  }

  /** One session on its own: `count` edits one after the other. */
  lemma {:induction false} WriteAlone(r: Race, users: map<nat, User>, author: User, s: nat, count: nat) returns (all: seq<Step>)
    requires Poised(r, users, author, {}, 0) && s in Authors(users, author) && count < MAX_EDITS
    ensures Poised(RunFrom(r, all), users, author, {}, count)
  {
    all := [];
    if count > 0 {
      var before := WriteAlone(r, users, author, s, count - 1);
      var checked := CheckAll(r, before, users, author, count - 1, {s});
      all := WriteAll(r, checked, users, author, count - 1, {s});
    }
  }

  /** Whoever else is logged in: if the author has a session, some schedule reaches the bound. */
  lemma BoundIsReached(row: Message, users: map<nat, User>)
    requires JustSent(row) && Authors(users, row.from) != {}
    ensures exists steps :: EditsAfter(row, users, steps) == 9 + |Authors(users, row.from)|
  {
    var r, authors := Start(row, users), Authors(users, row.from);
    var s :| s in authors;
    assert r.points == AllCounted({});
    var alone := WriteAlone(r, users, row.from, s, MAX_EDITS - 1);
    var checked := CheckAll(r, alone, users, row.from, MAX_EDITS - 1, authors);
    var all := WriteAll(r, checked, users, row.from, MAX_EDITS - 1, authors);
    assert EditsAfter(row, users, all) == MAX_EDITS - 1 + |authors|;
  }

  /** The limit of ten holds in every schedule exactly when the author has at most one session. */
  lemma LimitHoldsIff(row: Message, users: map<nat, User>)
    requires JustSent(row)
    ensures (forall steps :: EditsAfter(row, users, steps) <= 10) <==> |Authors(users, row.from)| <= 1
  {
    forall steps ensures EditsAfter(row, users, steps) <= 9 + |Authors(users, row.from)| {
      EditCountBound(row, users, steps);
    }
    if |Authors(users, row.from)| > 1 {
      BoundIsReached(row, users);
      var steps :| EditsAfter(row, users, steps) == 9 + |Authors(users, row.from)|;
      assert EditsAfter(row, users, steps) > 10;
    }
  }

  // ---------------------------------------------------------------- what an edit rests on

  /** The i-th step found the session to be the author's and the message no older than 15 minutes. */
  ghost predicate InTime(row: Message, users: map<nat, User>, steps: seq<Step>, i: nat, s: nat) {
    && i < |steps| && steps[i].FetchForEdit? && steps[i].s == s
    && s in users && users[s] == row.from
    && steps[i].now - row.createdAt <= 900_000_000_000
  }

  /** The j-th step found fewer than ten edits. */
  ghost predicate Below(row: Message, users: map<nat, User>, steps: seq<Step>, j: nat, s: nat) {
    j < |steps| && steps[j] == CheckCount(s) && EditsAfter(row, users, steps[..j]) < 10
  }

  /** A session that has fetched, or fetched and counted, did so rightfully. */
  ghost predicate Grounds(row: Message, users: map<nat, User>, steps: seq<Step>, s: nat, at: Option<Point>) {
    match at
    case Some(Fetched) => exists i :: InTime(row, users, steps, i, s)
    case Some(Counted) => exists i, j :: Later(i, j) && InTime(row, users, steps, i, s) && Below(row, users, steps, j, s)
    case _ => true
  }

  predicate Later(i: nat, j: nat) {
    i < j
  }

  lemma GroundsStay(row: Message, users: map<nat, User>, init: seq<Step>, step: Step, s: nat, at: Option<Point>)
    requires Grounds(row, users, init, s, at)
    ensures Grounds(row, users, init + [step], s, at)
  {
    var all := init + [step];
    assert forall i :: InTime(row, users, init, i, s) ==> InTime(row, users, all, i, s);
    forall j: nat | Below(row, users, init, j, s) ensures Below(row, users, all, j, s) {
      assert all[..j] == init[..j];
    }
  }

  lemma {:induction false} SourceStays(row: Message, users: map<nat, User>, steps: seq<Step>)
    ensures var r := RunFrom(Start(row, users), steps);
            r.users == users && r.row.from == row.from && r.row.createdAt == row.createdAt
  {
    if steps != [] {
      SourceStays(row, users, steps[..|steps| - 1]);
    }
  }

  lemma NewGrounds(row: Message, users: map<nat, User>, init: seq<Step>, step: Step, s: nat)
    requires var r := RunFrom(Start(row, users), init);
             Grounds(row, users, init, s, At(r, s)) && At(Next(r, step), s) != At(r, s)
    ensures Grounds(row, users, init + [step], s, At(Next(RunFrom(Start(row, users), init), step), s))
  {
    var r, all := RunFrom(Start(row, users), init), init + [step];
    SourceStays(row, users, init);
    assert all[|init|] == step && all[..|init|] == init;
    if step.FetchForEdit? {
      assert InTime(row, users, all, |init|, s);
    } else if step.CheckCount? && At(Next(r, step), s) == Some(Counted) {
      var i :| InTime(row, users, init, i, s);
      assert InTime(row, users, all, i, s) && Below(row, users, all, |init|, s) && Later(i, |init|);
    }
  }

  lemma {:induction false} PointsHaveGrounds(row: Message, users: map<nat, User>, steps: seq<Step>, s: nat)
    ensures Grounds(row, users, steps, s, At(RunFrom(Start(row, users), steps), s))
  {
    if steps != [] {
      var init, last := steps[..|steps| - 1], steps[|steps| - 1];
      var r := RunFrom(Start(row, users), init);
      assert steps == init + [last];
      PointsHaveGrounds(row, users, init, s);
      if At(Next(r, last), s) == At(r, s) {
        GroundsStay(row, users, init, last, s, At(r, s));
      } else {
        NewGrounds(row, users, init, last, s);
      }
    }
  }

  /**
   Every edit that is written was asked for by a session of the author, within 15 minutes of the
   sending, and passed a later check that found fewer than ten edits.
   */
  lemma EditsHaveGrounds(row: Message, users: map<nat, User>, steps: seq<Step>, s: nat, content: Content, now: Time)
    requires var r := RunFrom(Start(row, users), steps); Next(r, WriteEdit(s, content, now)).committed != r.committed
    ensures exists i, j :: Later(i, j) && InTime(row, users, steps, i, s) && Below(row, users, steps, j, s)
  {
    PointsHaveGrounds(row, users, steps, s);
  }

  /**
   An edit with nothing in between: written if a session of the author asks within 15 minutes and
   finds fewer than ten edits, with no effect on a message that has been withdrawn.
   */
  lemma EditAlone(r: Race, s: nat, content: Content, fetched: Time, now: Time)
    requires s !in r.points && r.lock == None
    ensures
      var head := OrEmpty(r.row.head);
      Next(Next(Next(r, FetchForEdit(s, fetched)), CheckCount(s)), WriteEdit(s, content, now))
      == if s in r.users && r.users[s] == r.row.from && fetched - r.row.createdAt <= 900_000_000_000 && CountOf(head) < 10
         then r.(row := if r.row.deletedAt.Some? then r.row
                        else r.row.(content := content, updatedAt := now,
                                    head := Some(head[EditCount := Num(CountOf(head) + 1)][EditedAt := Stamp(now)])),
                 committed := r.committed + [Edit(content, now)])
         else r
  {
    var head := OrEmpty(r.row.head);
    PutBack(r.points, s, Fetched, Counted);
    PutBack(r.points, s, Counted, Counted);
    assert Edited(head, now) == head[EditCount := Num(CountOf(head) + 1)][EditedAt := Stamp(now)];
  }
}
