/**
 Invites and contacts read off the history of what was asked for: each invite is what its
 creation said, and the first request that closed it in time says how it ended.
 */
module InviteLog {
  import opened Prelude
  import opened Uuid
  import opened Invites
  import opened Redemption
  import Conversations

  /** Some invite on record has the code. */
  ghost predicate HasCode(records: map<Id, Invite>, code: string) {
    exists id :: id in records && records[id].code == code
  }

  /** An invite that nobody has used, revoked or let run out. */
  predicate Waits(records: map<Id, Invite>, id: Id) {
    id in records && records[id].status == Pending
  }

  /** What is on record after these requests. */
  ghost function Records(steps: seq<Step>): map<Id, Invite> {
    if steps == [] then map[]
    else
      var init := steps[..|steps| - 1];
      var was := Records(init);
      match steps[|steps| - 1]
      case Create(id, inviter, code, email, expiresAt) =>
        if id !in was && Register(inviter) in init && !HasCode(was, code)
        then was[id := Invite(inviter, code, email, Pending, None, None, expiresAt)] else was
      case Use(id, user, now) =>
        if Waits(was, id) && now < was[id].expiresAt && Register(user) in init
        then was[id := was[id].(status := Used, usedBy := Some(user), usedAt := Some(now))] else was
      case Revoke(id, inviter) =>
        if Waits(was, id) && was[id].inviter == inviter then was[id := was[id].(status := Revoked)] else was
      case ExpireOld(now) =>
        map id | id in was :: if Waits(was, id) && was[id].expiresAt < now then was[id].(status := Expired) else was[id]
      case _ => was
  }

  /** Whether two users are contacts: so since the last request that added them, unless removed since. */
  ghost function Friends(steps: seq<Step>, a: Id, b: Id): bool {
    steps != [] &&
    var init := steps[..|steps| - 1];
    match steps[|steps| - 1]
    case AddManually(x, y) =>
      Friends(init, a, b) || (((x, y) == (a, b) || (y, x) == (a, b)) && x != y && Register(x) in init && Register(y) in init)
    case AddInvited(x, y) =>
      Friends(init, a, b)
      || (((x, y) == (a, b) || (y, x) == (a, b))
          && Joined(RunFrom(EMPTY_DB, init), x, y) && Register(x) in init && Register(y) in init)
    case RemoveContact(x, y) => Friends(init, a, b) && (x, y) != (a, b) && (y, x) != (a, b)
    case _ => Friends(init, a, b)
  }

  // ---------------------------------------------------------------- the database says the same

  lemma ConnectedElsewhere(db: Db, a: Id, b: Id, freshId: Id)
    ensures var after := Connected(db, a, b, freshId);
            after.t.users == db.t.users && after.invites == db.invites && after.contacts == db.contacts
  {
    ConnectedIs(db, a, b, freshId);
  }

  lemma NextUsers(db: Db, step: Step, user: Id)
    ensures user in Next(db, step).t.users <==> user in db.t.users || step == Register(user)
  {
    match step
    case Connect(a, b, freshId) => ConnectedElsewhere(db, a, b, freshId);
    case _ =>
  }

  lemma {:induction false} UsersToldBy(steps: seq<Step>, user: Id)
    ensures user in RunFrom(EMPTY_DB, steps).t.users <==> Register(user) in steps
  {
    if steps != [] {
      var init, last := steps[..|steps| - 1], steps[|steps| - 1];
      assert steps == init + [last];
      UsersToldBy(init, user);
      NextUsers(RunFrom(EMPTY_DB, init), last, user);
    }
  }

  lemma RecordsStep(init: seq<Step>, db: Db, last: Step)
    requires db.invites == Records(init) && forall user :: user in db.t.users <==> Register(user) in init
    ensures Next(db, last).invites == Records(init + [last])
  {
    assert (init + [last])[..|init|] == init;
    match last
    case Connect(a, b, freshId) => ConnectedElsewhere(db, a, b, freshId);
    case _ =>
  }

  /** The table of invites is what is on record. */
  lemma {:induction false} InvitesToldBy(steps: seq<Step>)
    ensures RunFrom(EMPTY_DB, steps).invites == Records(steps)
  {
    if steps != [] {
      var init, last := steps[..|steps| - 1], steps[|steps| - 1];
      assert steps == init + [last];
      InvitesToldBy(init);
      forall user ensures user in RunFrom(EMPTY_DB, init).t.users <==> Register(user) in init {
        UsersToldBy(init, user);
      }
      RecordsStep(init, RunFrom(EMPTY_DB, init), last);
    }
  }

  /** An invite that is used was used in time, by a registered user. */
  lemma {:induction false} UsedInTime(steps: seq<Step>, id: Id)
    requires id in Records(steps) && Records(steps)[id].status == Used
    ensures id in RunFrom(EMPTY_DB, steps).invites && RunFrom(EMPTY_DB, steps).invites[id] == Records(steps)[id]
    ensures var invite := Records(steps)[id];
            && invite.usedBy.Some? && Register(invite.usedBy.value) in steps
            && invite.usedAt.Some? && invite.usedAt.value < invite.expiresAt
  {
    InvitesToldBy(steps);
    var init, last := steps[..|steps| - 1], steps[|steps| - 1];
    assert steps == init + [last];
    if id in Records(init) && Records(init)[id].status == Used {
      UsedInTime(init, id);
    }
  }

  lemma FriendsStep(init: seq<Step>, last: Step, a: Id, b: Id)
    requires var db := RunFrom(EMPTY_DB, init);
             && ((a, b) in db.contacts <==> Friends(init, a, b))
             && forall user :: user in db.t.users <==> Register(user) in init
    ensures (a, b) in Next(RunFrom(EMPTY_DB, init), last).contacts <==> Friends(init + [last], a, b)
  {
    assert (init + [last])[..|init|] == init;
    if last.Connect? {
      ConnectedElsewhere(RunFrom(EMPTY_DB, init), last.a, last.b, last.freshId);
    }
  }

  /** Two users are contacts exactly as the history says. */
  lemma {:induction false} ContactsToldBy(steps: seq<Step>, a: Id, b: Id)
    ensures (a, b) in RunFrom(EMPTY_DB, steps).contacts <==> Friends(steps, a, b)
  {
    if steps != [] {
      var init, last := steps[..|steps| - 1], steps[|steps| - 1];
      assert steps == init + [last];
      ContactsToldBy(init, a, b);
      forall user ensures user in RunFrom(EMPTY_DB, init).t.users <==> Register(user) in init {
        UsersToldBy(init, user);
      }
      FriendsStep(init, last, a, b);
    }
  }

  // ---------------------------------------------------------------- redeeming in time

  /** The lookup of both redemptions, by the columns. */
  lemma FindsByColumns(db: Db, env: Env, code: string, id: Id)
    ensures Finds(db, env, code, id)
       <==> && !env.fails(0) && id in At(db, env, 0).invites
            && At(db, env, 0).invites[id].status == Pending && At(db, env, 0).invites[id].expiresAt > env.now(0)
            && At(db, env, 0).invites[id].code == code
  {
  }

  /** A code whose invite has expired by the lookup leads nowhere: neither call has an invite to use. */
  lemma ExpiredCodeFindsNothing(db: Db, env: Env, code: string)
    requires forall id :: id in At(db, env, 0).invites && At(db, env, 0).invites[id].code == code ==>
               At(db, env, 0).invites[id].expiresAt <= env.now(0)
    ensures forall id :: !Finds(db, env, code, id)
  {
    forall id ensures !Finds(db, env, code, id) {
      FindsByColumns(db, env, code, id);
    }
  }

  /** One UseInvite of a redemption, by the columns: it takes the invite in time, or leaves it. */
  lemma UseByColumns(db: Db, env: Env, k: nat, id: Id, user: Id)
    ensures var (at, after) := (At(db, env, k), UseDb(db, env, k, id, user));
            var taken := !env.fails(k) && id in at.invites && at.invites[id].status == Pending
                         && at.invites[id].expiresAt > env.now(k) && user in at.t.users;
            && (UseAnswer(db, env, k, id, user).Row? <==> taken)
            && after == if taken
                        then at.(invites := at.invites[
                               id := at.invites[id].(status := Used, usedBy := Some(user), usedAt := Some(env.now(k)))])
                        else at
  {
  }
}
