/**
 What a redemption is worth, whatever other requests do between its statements: who is
 connected, which invites are taken, which are left open.  The last part is a race in which
 another user gets the invite first.
 */
module RedemptionRuns {
  import opened Prelude
  import opened Uuid
  import opened Invites
  import opened Redemption
  import Conversations

  // ---------------------------------------------------------------- what every call keeps

  lemma ConnectKeeps(db: Db, env: Env, k: nat, inviter: Id, user: Id)
    requires Lawful(env)
    requires Inv(db)
    ensures Inv(ConnectDb(db, env, k, inviter, user)) && Kept(db, ConnectDb(db, env, k, inviter, user))
    ensures DmMade(db, env, k, inviter, user) || Raced(db, env, k, inviter, user) ==>
              ExactlyOneDm(ConnectDb(db, env, k, inviter, user).t, inviter, user)
  {
    var made := DmDb(db, env, k, inviter, user);
    DmKeeps(db, env, k, inviter, user);
    if DmMade(db, env, k, inviter, user) || Raced(db, env, k, inviter, user) {
      MadeIsJoined(db, env, k, inviter, user);
      JoinedOnce(made, inviter, user);
    }
    if DmMade(db, env, k, inviter, user) {
      FriendKeeps(made, env, k + 2, inviter, user);
      KeptTransitive(db, made, FriendDb(made, env, k + 2, inviter, user));
      OneDmKept(made, FriendDb(made, env, k + 2, inviter, user), inviter, user);
    }
  }

  /** One conversation with this pair, and no second one. */
  ghost predicate ExactlyOneDm(t: Conversations.Tables, a: Id, b: Id) {
    a != b && exists conv :: DmIs(t, a, b, conv) && forall other :: DmIs(t, a, b, other) ==> other == conv
  }

  lemma JoinedOnce(db: Db, a: Id, b: Id)
    requires Inv(db) && Joined(db, a, b)
    ensures ExactlyOneDm(db.t, a, b)
  {
    JoinedAreTwo(db, a, b);
    var conv :| conv in db.t.pairs && db.t.pairs[conv] == Conversations.Ordered(a, b);
    assert DmIs(db.t, a, b, conv);
    assert forall other :: DmIs(db.t, a, b, other) ==> db.t.pairs[other] == db.t.pairs[conv];
  }

  lemma OneDmKept(was: Db, now: Db, a: Id, b: Id)
    requires Inv(now) && Kept(was, now) && ExactlyOneDm(was.t, a, b)
    ensures ExactlyOneDm(now.t, a, b)
  {
    var conv :| DmIs(was.t, a, b, conv);
    assert DmIs(now.t, a, b, conv);
    JoinedOnce(now, a, b);
  }

  /** Everyone in the list is another user with exactly one DM with this one. */
  ghost predicate WellConnected(db: Db, connected: seq<Id>, user: Id) {
    forall u :: u in connected ==> ExactlyOneDm(db.t, u, user)
  }

  lemma WellConnectedKept(was: Db, now: Db, connected: seq<Id>, user: Id)
    requires Inv(now) && Kept(was, now) && WellConnected(was, connected, user)
    ensures WellConnected(now, connected, user)
  {
    forall u | u in connected ensures ExactlyOneDm(now.t, u, user) {
      OneDmKept(was, now, u, user);
    }
  }

  lemma TakeOneKeeps(p: Progress, env: Env, id: Id, inviter: Id, user: Id)
    requires Lawful(env)
    requires Inv(p.db) && WellConnected(p.db, p.connected, user)
    ensures var q := TakeOne(p, env, id, inviter, user);
            && Inv(q.db) && Kept(p.db, q.db) && WellConnected(q.db, q.connected, user) && q.k > p.k
            && Kept(UseDb(p.db, env, p.k, id, user), q.db)
  {
    var used := UseDb(p.db, env, p.k, id, user);
    UseKeeps(p.db, env, p.k, id, user);
    WellConnectedKept(p.db, used, p.connected, user);
    if !UseAnswer(p.db, env, p.k, id, user).Failed? {
      var db := ConnectDb(used, env, p.k + 1, inviter, user);
      ConnectKeeps(used, env, p.k + 1, inviter, user);
      KeptTransitive(p.db, used, db);
      WellConnectedKept(used, db, p.connected, user);
    }
  }

  lemma {:induction false} TakeRowsKeeps(p: Progress, env: Env, rows: seq<Id>, found: map<Id, Invite>, main: Id, user: Id)
    requires Lawful(env)
    requires Inv(p.db) && WellConnected(p.db, p.connected, user) && forall id :: id in rows ==> id in found
    ensures var q := TakeRows(p, env, rows, found, main, user);
            Inv(q.db) && Kept(p.db, q.db) && WellConnected(q.db, q.connected, user) && q.k >= p.k
  {
    if rows != [] {
      var n := |rows| - 1;
      TakeRowsKeeps(p, env, rows[..n], found, main, user);
      if rows[n] != main {
        var q := TakeRows(p, env, rows[..n], found, main, user);
        TakeOneKeeps(q, env, rows[n], found[rows[n]].inviter, user);
        KeptTransitive(p.db, q.db, TakeOne(q, env, rows[n], found[rows[n]].inviter, user).db);
      }
    }
  }

  /** The states that a call passes through: found, opened, listed, done. */
  lemma OpeningKeeps(db: Db, env: Env, main: Id, user: Id)
    requires Lawful(env)
    requires Inv(db) && main in At(db, env, 0).invites
    ensures Inv(At(db, env, 0)) && Kept(db, At(db, env, 0))
    ensures var p := Opened(db, env, main, user);
            Inv(p.db) && Kept(At(db, env, 0), p.db) && Kept(db, p.db) && WellConnected(p.db, p.connected, user) && p.k > 1
    ensures var q := ListedFrom(db, env, main, user);
            Inv(q.db) && Kept(Opened(db, env, main, user).db, q.db) && Kept(db, q.db) && WellConnected(q.db, q.connected, user)
  {
    var at, p := At(db, env, 0), Opened(db, env, main, user);
    AtKeeps(db, env, 0);
    TakeOneKeeps(Progress(at, [], {}, {}, 1), env, main, at.invites[main].inviter, user);
    KeptTransitive(db, at, p.db);
    AtKeeps(p.db, env, p.k);
    KeptTransitive(db, p.db, At(p.db, env, p.k));
    WellConnectedKept(p.db, At(p.db, env, p.k), p.connected, user);
  }

  lemma CallKeeps(db: Db, env: Env, main: Id, user: Id, email: string, rows: seq<Id>)
    requires Lawful(env)
    requires Inv(db) && main in At(db, env, 0).invites && Listed(db, env, main, user, email, rows)
    ensures var q := RedeemedAll(db, env, main, user, email, rows);
            && Inv(q.db) && WellConnected(q.db, q.connected, user) && q.k > 1
            && Kept(Opened(db, env, main, user).db, q.db)
            && (!MainFails(db, env, main, user) ==>
                  Kept(ListedFrom(db, env, main, user).db, q.db) && q.k > Opened(db, env, main, user).k)
  {
    OpeningKeeps(db, env, main, user);
    if !MainFails(db, env, main, user) {
      var p := ListedFrom(db, env, main, user);
      TakeRowsKeeps(p, env, rows, p.db.invites, main, user);
      KeptTransitive(Opened(db, env, main, user).db, p.db, RedeemedAll(db, env, main, user, email, rows).db);
    }
  }

  /** Each inviter a call returns is another user with exactly one DM with the new one, whatever happens around it. */
  lemma RedemptionConnects(db: Db, env: Env, main: Id, user: Id, email: string, rows: seq<Id>)
    requires Lawful(env)
    requires Inv(db) && main in At(db, env, 0).invites && Listed(db, env, main, user, email, rows)
    ensures var q := RedeemedAll(db, env, main, user, email, rows);
            Inv(q.db) && Kept(db, q.db) && WellConnected(q.db, q.connected, user)
  {
    OpeningKeeps(db, env, main, user);
    CallKeeps(db, env, main, user, email, rows);
    KeptTransitive(db, Opened(db, env, main, user).db, RedeemedAll(db, env, main, user, email, rows).db);
  }

  // ---------------------------------------------------------------- which invites are left

  ghost predicate NoFailure(env: Env) {
    forall k :: !env.fails(k)
  }

  ghost predicate ClockRuns(env: Env) {
    forall j, k :: j <= k ==> env.now(j) <= env.now(k)
  }

  /** The database in which UseInvite of the main invite takes place. */
  ghost function MainAt(db: Db, env: Env): Db {
    At(At(db, env, 0), env, 1)
  }

  /** The error return happens exactly when the invite was lost meanwhile and the store reports that as an error. */
  lemma MainFailsIff(db: Db, env: Env, main: Id, user: Id)
    requires Lawful(env)
    requires Inv(db) && NoFailure(env) && user in db.t.users
    ensures MainFails(db, env, main, user) <==> !env.noRowIsNil && !Usable(MainAt(db, env), main, env.now(1))
  {
    AtKeeps(db, env, 0);
    AtKeeps(At(db, env, 0), env, 1);
  }

  lemma StaysUnusable(was: Db, now: Db, id: Id, t: Time, t': Time)
    requires Kept(was, now) && id in was.invites && !Usable(was, id, t) && t <= t'
    ensures !Usable(now, id, t')
  {
  }

  /** After UseInvite an invite is not open, whoever used it. */
  lemma UseCloses(db: Db, env: Env, k: nat, id: Id, user: Id)
    requires Lawful(env)
    requires Inv(db) && NoFailure(env) && user in db.t.users && id in db.invites
    ensures id in UseDb(db, env, k, id, user).invites && !Usable(UseDb(db, env, k, id, user), id, env.now(k))
  {
    AtKeeps(db, env, k);
    UseKeeps(db, env, k, id, user);
  }

  lemma TakeOneCloses(p: Progress, env: Env, id: Id, inviter: Id, user: Id, t: Time)
    requires Lawful(env)
    requires Inv(p.db) && WellConnected(p.db, p.connected, user) && NoFailure(env)
    requires user in p.db.t.users && id in p.db.invites && env.now(p.k) <= t
    ensures !Usable(TakeOne(p, env, id, inviter, user).db, id, t)
  {
    UseCloses(p.db, env, p.k, id, user);
    TakeOneKeeps(p, env, id, inviter, user);
    StaysUnusable(UseDb(p.db, env, p.k, id, user), TakeOne(p, env, id, inviter, user).db, id, env.now(p.k), t);
  }

  lemma {:induction false} TakeRowsCloses(p: Progress, env: Env, rows: seq<Id>, found: map<Id, Invite>, main: Id,
                                          user: Id, id: Id)
    requires Lawful(env)
    requires Inv(p.db) && WellConnected(p.db, p.connected, user) && NoFailure(env) && ClockRuns(env)
    requires user in p.db.t.users && p.k > 0 && forall x :: x in rows ==> x in found && x in p.db.invites
    requires id in rows && id != main
    ensures var q := TakeRows(p, env, rows, found, main, user);
            q.k > 0 && !Usable(q.db, id, env.now(q.k - 1))
  {
    var n := |rows| - 1;
    assert rows == rows[..n] + [rows[n]];
    var q := TakeRows(p, env, rows[..n], found, main, user);
    TakeRowsKeeps(p, env, rows[..n], found, main, user);
    if rows[n] != main {
      var r := TakeOne(q, env, rows[n], found[rows[n]].inviter, user);
      TakeOneKeeps(q, env, rows[n], found[rows[n]].inviter, user);
      if rows[n] == id {
        TakeOneCloses(q, env, id, found[id].inviter, user, env.now(r.k - 1));
      } else {
        TakeRowsCloses(p, env, rows[..n], found, main, user, id);
        StaysUnusable(q.db, r.db, id, env.now(q.k - 1), env.now(r.k - 1));
      }
    } else {
      TakeRowsCloses(p, env, rows[..n], found, main, user, id);
    }
  }

  /** Every invite to the address that was there at the start is used up or past its time. */
  ghost predicate NothingLeft(was: Db, now: Db, email: string, t: Time) {
    forall id :: id in was.invites && was.invites[id].email == email ==> !Usable(now, id, t)
  }

  /** No other invite to the address was open when UseInvite of the main one ran. */
  ghost predicate NoOther(db: Db, env: Env, main: Id, email: string) {
    forall id :: id in db.invites && db.invites[id].email == email && id != main ==> !Usable(MainAt(db, env), id, env.now(1))
  }

  lemma LostRaceLeaves(db: Db, env: Env, main: Id, user: Id, email: string)
    requires Lawful(env)
    requires Inv(db) && NoFailure(env) && user in db.t.users && main in At(db, env, 0).invites && MainFails(db, env, main, user)
    ensures Opened(db, env, main, user) == Progress(MainAt(db, env), [], {}, {}, 2)
    ensures NothingLeft(db, MainAt(db, env), email, env.now(1)) <==> NoOther(db, env, main, email)
  {
    MainFailsIff(db, env, main, user);
  }

  lemma RowsAreClosed(db: Db, env: Env, main: Id, user: Id, email: string, rows: seq<Id>, id: Id)
    requires Lawful(env)
    requires Inv(db) && NoFailure(env) && ClockRuns(env) && user in db.t.users
    requires main in At(db, env, 0).invites && Listed(db, env, main, user, email, rows) && !MainFails(db, env, main, user)
    requires id in db.invites && db.invites[id].email == email
    ensures var q := RedeemedAll(db, env, main, user, email, rows); q.k > 0 && !Usable(q.db, id, env.now(q.k - 1))
  {
    var at, middle, p := At(db, env, 0), Opened(db, env, main, user), ListedFrom(db, env, main, user);
    var q := RedeemedAll(db, env, main, user, email, rows);
    OpeningKeeps(db, env, main, user);
    CallKeeps(db, env, main, user, email, rows);
    if id == main {
      TakeOneCloses(Progress(at, [], {}, {}, 1), env, main, at.invites[main].inviter, user, env.now(q.k - 1));
      StaysUnusable(middle.db, q.db, main, env.now(q.k - 1), env.now(q.k - 1));
    } else if id in rows {
      TakeRowsCloses(p, env, rows, p.db.invites, main, user, id);
    } else {
      assert InviteKept(db.invites[id], p.db.invites[id]);
      StaysUnusable(p.db, q.db, id, env.now(middle.k), env.now(q.k - 1));
    }
  }

  /**
   With no failing statement a call leaves no open invite to the address, by the time of its last
   statement, if and only if it did not lose its own invite with an error, or there was no other.
   */
  lemma NothingLeftIff(db: Db, env: Env, main: Id, user: Id, email: string, rows: seq<Id>)
    requires Lawful(env)
    requires Inv(db) && NoFailure(env) && ClockRuns(env) && user in db.t.users
    requires main in At(db, env, 0).invites && Listed(db, env, main, user, email, rows)
    ensures RedeemedAll(db, env, main, user, email, rows).k > 0
    ensures NothingLeft(db, RedeemedAll(db, env, main, user, email, rows).db, email,
                        env.now(RedeemedAll(db, env, main, user, email, rows).k - 1))
       <==> env.noRowIsNil || Usable(MainAt(db, env), main, env.now(1)) || NoOther(db, env, main, email)
  {
    MainFailsIff(db, env, main, user);
    CallKeeps(db, env, main, user, email, rows);
    if MainFails(db, env, main, user) {
      LostRaceLeaves(db, env, main, user, email);
    } else {
      forall id | id in db.invites && db.invites[id].email == email
        ensures !Usable(RedeemedAll(db, env, main, user, email, rows).db, id,
                        env.now(RedeemedAll(db, env, main, user, email, rows).k - 1))
      {
        RowsAreClosed(db, env, main, user, email, rows, id);
      }
    }
  }

  // ---------------------------------------------------------------- who is connected

  /** None of the ids generated for statements from..n is in use. */
  ghost predicate Unused(t: Conversations.Tables, env: Env, from: nat, n: nat) {
    forall k :: from <= k < n ==> env.freshId(k) !in t.convs
  }

  /** The others do not use one of the generated ids that is still unused. */
  ghost predicate Spares(env: Env, k: nat, db: Db, n: nat) {
    forall j :: 0 <= j < n && env.freshId(j) in At(db, env, k).t.convs ==> env.freshId(j) in db.t.convs
  }

  /** The first n generated ids are new: not in the tables, not generated twice, and no other request's. */
  ghost predicate FreshIds(db: Db, env: Env, n: nat) {
    && Unused(db.t, env, 0, n)
    && (forall j, k :: 0 <= j < k < n ==> env.freshId(j) != env.freshId(k))
    && (forall k, db' :: Spares(env, k, db', n))
  }

  lemma AtUnused(db: Db, db0: Db, env: Env, k: nat, from: nat, n: nat)
    requires FreshIds(db0, env, n) && Unused(db.t, env, from, n)
    ensures Unused(At(db, env, k).t, env, from, n)
  {
    assert Spares(env, k, db, n);
  }

  lemma UseUnused(db: Db, db0: Db, env: Env, k: nat, id: Id, user: Id, n: nat)
    requires FreshIds(db0, env, n) && k < n && Unused(db.t, env, k, n)
    ensures Unused(UseDb(db, env, k, id, user).t, env, k, n)
  {
    AtUnused(db, db0, env, k, k, n);
  }

  lemma ConnectedConvs(db: Db, a: Id, b: Id, id: Id, x: Id)
    ensures x in Connected(db, a, b, id).t.convs ==> x in db.t.convs || x == id
  {
  }

  lemma InsertConvs(db: Db, env: Env, k: nat, a: Id, b: Id, x: Id)
    ensures x in InsertDb(db, env, k, a, b).t.convs ==> x in At(db, env, k).t.convs || x == env.freshId(k)
  {
    ConnectedConvs(At(db, env, k), a, b, env.freshId(k), x);
  }

  lemma FriendConvs(db: Db, env: Env, k: nat, a: Id, b: Id)
    ensures FriendDb(db, env, k, a, b).t == At(db, env, k).t
  {
  }

  lemma DmConvs(db: Db, env: Env, k: nat, a: Id, b: Id, x: Id)
    requires x !in At(db, env, k).t.convs && x !in At(At(db, env, k), env, k + 1).t.convs && x != env.freshId(k + 1)
    ensures x !in DmDb(db, env, k, a, b).t.convs
  {
    InsertConvs(At(db, env, k), env, k + 1, a, b, x);
  }

  lemma DmUnused(db: Db, db0: Db, env: Env, k: nat, inviter: Id, user: Id, n: nat, j: nat)
    requires FreshIds(db0, env, n) && Unused(db.t, env, k, n) && k + 2 <= j < n
    ensures env.freshId(j) !in DmDb(db, env, k, inviter, user).t.convs
  {
    AtUnused(db, db0, env, k, k, n);
    AtUnused(At(db, env, k), db0, env, k + 1, k, n);
    DmConvs(db, env, k, inviter, user, env.freshId(j));
  }

  lemma ConnectConvs(db: Db, env: Env, k: nat, a: Id, b: Id, x: Id)
    requires x !in DmDb(db, env, k, a, b).t.convs && x !in At(DmDb(db, env, k, a, b), env, k + 2).t.convs
    ensures x !in ConnectDb(db, env, k, a, b).t.convs
  {
    FriendConvs(DmDb(db, env, k, a, b), env, k + 2, a, b);
  }

  lemma ConnectUnusedAt(db: Db, db0: Db, env: Env, k: nat, inviter: Id, user: Id, n: nat, j: nat)
    requires FreshIds(db0, env, n) && Unused(db.t, env, k, n) && k + 2 <= j < n
    ensures env.freshId(j) !in ConnectDb(db, env, k, inviter, user).t.convs
  {
    DmUnused(db, db0, env, k, inviter, user, n, j);
    assert Spares(env, k + 2, DmDb(db, env, k, inviter, user), n);
    ConnectConvs(db, env, k, inviter, user, env.freshId(j));
  }

  lemma ConnectUnused(db: Db, db0: Db, env: Env, k: nat, inviter: Id, user: Id, n: nat)
    requires FreshIds(db0, env, n) && Unused(db.t, env, k, n)
    ensures Unused(ConnectDb(db, env, k, inviter, user).t, env, k + 2, n)
  {
    forall j | k + 2 <= j < n ensures env.freshId(j) !in ConnectDb(db, env, k, inviter, user).t.convs {
      ConnectUnusedAt(db, db0, env, k, inviter, user, n, j);
    }
  }

  lemma FreshInsert(db: Db, env: Env, k: nat, inviter: Id, user: Id)
    requires Inv(At(db, env, k)) && !env.fails(k) && env.freshId(k) !in At(db, env, k).t.convs
    requires inviter in At(db, env, k).t.users && user in At(db, env, k).t.users
    ensures Inserted(db, env, k, inviter, user) <==> inviter != user && !Joined(At(db, env, k), inviter, user)
  {
    var at := At(db, env, k);
    ConnectedIs(at, inviter, user, env.freshId(k));
    Conversations.OrderedMeetsCheck(inviter, user);
  }

  /** Two different users and an unused id: CreateDM fails only by losing the race. */
  lemma FreshDmIsMade(db: Db, db0: Db, env: Env, k: nat, inviter: Id, user: Id, n: nat)
    requires Lawful(env)
    requires Inv(db) && NoFailure(env) && FreshIds(db0, env, n) && k + 1 < n && Unused(db.t, env, k, n)
    requires inviter in db.t.users && user in db.t.users
    ensures DmMade(db, env, k, inviter, user) <==> inviter != user && !Raced(db, env, k, inviter, user)
    ensures Raced(db, env, k, inviter, user) ==> inviter != user
  {
    var at := At(db, env, k);
    AtKeeps(db, env, k);
    AtKeeps(at, env, k + 1);
    AtUnused(db, db0, env, k, k, n);
    AtUnused(at, db0, env, k + 1, k, n);
    FreshInsert(at, env, k + 1, inviter, user);
    if Joined(at, inviter, user) {
      JoinedAreTwo(at, inviter, user);
    }
    if Joined(At(at, env, k + 1), inviter, user) {
      JoinedAreTwo(At(at, env, k + 1), inviter, user);
    }
  }

  /** The connected users are the authors of the invites taken without a lost race, except this user. */
  ghost predicate ConnectedAreAuthors(p: Progress, user: Id) {
    && (forall id :: id in p.taken ==> id in p.db.invites)
    && forall u :: u in p.connected <==> u != user && Authored(p, u)
  }

  ghost predicate AuthoredBy(p: Progress, id: Id, u: Id) {
    id in p.taken && id !in p.lost && id in p.db.invites && p.db.invites[id].inviter == u
  }

  ghost predicate Authored(p: Progress, u: Id) {
    exists id :: AuthoredBy(p, id, u)
  }

  /** Where the race was lost the two have their DM all the same. */
  ghost predicate LostAreJoined(p: Progress, user: Id) {
    && p.lost <= p.taken
    && forall id :: id in p.lost && id in p.db.invites ==> ExactlyOneDm(p.db.t, p.db.invites[id].inviter, user)
  }

  /** What the steps of a call maintain as long as nothing fails and ids are fresh. */
  ghost predicate Going(p: Progress, env: Env, user: Id, n: nat) {
    && Inv(p.db) && user in p.db.t.users
    && WellConnected(p.db, p.connected, user)
    && Unused(p.db.t, env, p.k, n)
    && ConnectedAreAuthors(p, user)
    && LostAreJoined(p, user)
  }

  lemma AuthoredKept(p: Progress, q: Progress, u: Id)
    requires Kept(p.db, q.db) && p.taken == q.taken && p.lost == q.lost && forall id :: id in p.taken ==> id in p.db.invites
    ensures Authored(p, u) <==> Authored(q, u)
  {
    if id :| AuthoredBy(p, id, u) {
      assert AuthoredBy(q, id, u);
    }
    if id :| AuthoredBy(q, id, u) {
      assert AuthoredBy(p, id, u);
    }
  }

  lemma AuthorsKept(p: Progress, q: Progress, user: Id)
    requires ConnectedAreAuthors(p, user) && Kept(p.db, q.db)
    requires p.taken == q.taken && p.lost == q.lost && p.connected == q.connected
    ensures ConnectedAreAuthors(q, user)
  {
    forall u ensures u in q.connected <==> u != user && Authored(q, u) {
      AuthoredKept(p, q, u);
    }
  }

  /** One more invite, and its author if that is somebody else and no race was lost. */
  lemma AuthorsGrow(p: Progress, id: Id, o: Outcome, user: Id)
    requires ConnectedAreAuthors(p, user) && Kept(p.db, o.after) && id in p.db.invites && id !in p.taken && p.lost <= p.taken
    requires !o.failed && (o.made <==> p.db.invites[id].inviter != user && !o.raced)
    ensures ConnectedAreAuthors(Advanced(p, id, p.db.invites[id].inviter, o), user)
  {
    var same, author := p.(db := o.after), p.db.invites[id].inviter;
    var q := Advanced(p, id, author, o);
    AuthorsKept(p, same, user);
    assert InviteKept(p.db.invites[id], q.db.invites[id]);
    forall u ensures Authored(q, u) <==> Authored(same, u) || (u == author && !o.raced) {
      if x :| AuthoredBy(same, x, u) {
        assert AuthoredBy(q, x, u);
      }
      if x :| AuthoredBy(q, x, u) {
        assert x == id || AuthoredBy(same, x, u);
      }
      if u == author && !o.raced {
        assert AuthoredBy(q, id, u);
      }
    }
    forall u ensures u in q.connected <==> u != user && Authored(q, u) {
    }
  }

  lemma LostKept(p: Progress, q: Progress, user: Id)
    requires LostAreJoined(p, user) && Inv(q.db) && Kept(p.db, q.db) && q.lost == p.lost && p.taken <= q.taken
    requires forall id :: id in p.taken ==> id in p.db.invites
    ensures LostAreJoined(q, user)
  {
    forall id | id in q.lost && id in q.db.invites ensures ExactlyOneDm(q.db.t, q.db.invites[id].inviter, user) {
      assert id in p.lost && id in p.taken;
      OneDmKept(p.db, q.db, p.db.invites[id].inviter, user);
    }
  }

  lemma LostGrows(p: Progress, id: Id, o: Outcome, user: Id)
    requires LostAreJoined(p, user) && Inv(o.after) && Kept(p.db, o.after) && id in p.db.invites && !o.failed
    requires forall id :: id in p.taken ==> id in p.db.invites
    requires o.raced ==> ExactlyOneDm(o.after.t, p.db.invites[id].inviter, user)
    ensures LostAreJoined(Advanced(p, id, p.db.invites[id].inviter, o), user)
  {
    var same, q := p.(db := o.after), Advanced(p, id, p.db.invites[id].inviter, o);
    LostKept(p, same, user);
    forall x | x in q.lost && x in q.db.invites ensures ExactlyOneDm(q.db.t, q.db.invites[x].inviter, user) {
      assert x in same.lost || (x == id && InviteKept(p.db.invites[id], q.db.invites[id]));
    }
  }

  lemma RefusedGoes(p: Progress, db0: Db, env: Env, id: Id, inviter: Id, user: Id, n: nat)
    requires Lawful(env)
    requires FreshIds(db0, env, n) && Going(p, env, user, n) && p.k < n
    requires UseAnswer(p.db, env, p.k, id, user).Failed?
    ensures Going(TakeOne(p, env, id, inviter, user), env, user, n)
  {
    TakeOneKeeps(p, env, id, inviter, user);
    UseUnused(p.db, db0, env, p.k, id, user, n);
    AuthorsKept(p, TakeOne(p, env, id, inviter, user), user);
    LostKept(p, TakeOne(p, env, id, inviter, user), user);
  }

  lemma UnusedAdvances(p: Progress, id: Id, inviter: Id, o: Outcome, env: Env, n: nat)
    requires Unused(o.after.t, env, p.k + 3, n) && !o.failed
    ensures var q := Advanced(p, id, inviter, o); Unused(q.db.t, env, q.k, n)
  {
  }

  lemma TakenUnused(p: Progress, db0: Db, env: Env, id: Id, inviter: Id, user: Id, n: nat)
    requires FreshIds(db0, env, n) && Unused(p.db.t, env, p.k, n) && p.k + 3 < n
    requires !UseAnswer(p.db, env, p.k, id, user).Failed?
    ensures Unused(UseDb(p.db, env, p.k, id, user).t, env, p.k + 1, n)
    ensures Unused(TakeOne(p, env, id, inviter, user).db.t, env, TakeOne(p, env, id, inviter, user).k, n)
  {
    UseUnused(p.db, db0, env, p.k, id, user, n);
    ConnectUnused(UseDb(p.db, env, p.k, id, user), db0, env, p.k + 1, inviter, user, n);
    UnusedAdvances(p, id, inviter, OutcomeOf(p.db, env, p.k, id, inviter, user), env, n);
  }

  lemma TakenIsMade(p: Progress, db0: Db, env: Env, id: Id, user: Id, n: nat)
    requires Lawful(env)
    requires Inv(p.db) && NoFailure(env) && user in p.db.t.users && id in p.db.invites
    requires FreshIds(db0, env, n) && Unused(p.db.t, env, p.k, n) && p.k + 3 < n && !UseAnswer(p.db, env, p.k, id, user).Failed?
    ensures var o := OutcomeOf(p.db, env, p.k, id, p.db.invites[id].inviter, user);
            o.made <==> p.db.invites[id].inviter != user && !o.raced
  {
    var used, inviter := UseDb(p.db, env, p.k, id, user), p.db.invites[id].inviter;
    assert inviter in used.t.users && user in used.t.users && Inv(used) by {
      assert InviteOk(p.db.t, p.db.invites[id]);
      UseKeeps(p.db, env, p.k, id, user);
    }
    assert Unused(used.t, env, p.k + 1, n) by { TakenUnused(p, db0, env, id, inviter, user, n); }
    FreshDmIsMade(used, db0, env, p.k + 1, inviter, user, n);
  }

  lemma OutcomeKeeps(p: Progress, env: Env, id: Id, inviter: Id, user: Id)
    requires Lawful(env)
    requires Inv(p.db)
    ensures var o := OutcomeOf(p.db, env, p.k, id, inviter, user);
            Inv(o.after) && Kept(p.db, o.after) && (o.raced ==> ExactlyOneDm(o.after.t, inviter, user))
  {
    var used := UseDb(p.db, env, p.k, id, user);
    UseKeeps(p.db, env, p.k, id, user);
    ConnectKeeps(used, env, p.k + 1, inviter, user);
    KeptTransitive(p.db, used, ConnectDb(used, env, p.k + 1, inviter, user));
  }

  lemma TakenAuthored(p: Progress, db0: Db, env: Env, id: Id, user: Id, n: nat)
    requires Lawful(env)
    requires Inv(p.db) && NoFailure(env) && user in p.db.t.users && id in p.db.invites && id !in p.taken
    requires ConnectedAreAuthors(p, user) && LostAreJoined(p, user)
    requires FreshIds(db0, env, n) && Unused(p.db.t, env, p.k, n) && p.k + 3 < n && !UseAnswer(p.db, env, p.k, id, user).Failed?
    ensures ConnectedAreAuthors(TakeOne(p, env, id, p.db.invites[id].inviter, user), user)
    ensures LostAreJoined(TakeOne(p, env, id, p.db.invites[id].inviter, user), user)
  {
    var o := OutcomeOf(p.db, env, p.k, id, p.db.invites[id].inviter, user);
    OutcomeKeeps(p, env, id, p.db.invites[id].inviter, user);
    TakenIsMade(p, db0, env, id, user, n);
    AuthorsGrow(p, id, o, user);
    LostGrows(p, id, o, user);
  }

  lemma TakenGoes(p: Progress, db0: Db, env: Env, id: Id, user: Id, n: nat)
    requires Lawful(env)
    requires NoFailure(env) && FreshIds(db0, env, n) && Going(p, env, user, n) && p.k + 3 < n
    requires id in p.db.invites && id !in p.taken
    requires !UseAnswer(p.db, env, p.k, id, user).Failed?
    ensures Going(TakeOne(p, env, id, p.db.invites[id].inviter, user), env, user, n)
  {
    TakeOneKeeps(p, env, id, p.db.invites[id].inviter, user);
    TakenUnused(p, db0, env, id, p.db.invites[id].inviter, user, n);
    TakenAuthored(p, db0, env, id, user, n);
  }

  lemma TakeOneGoes(p: Progress, db0: Db, env: Env, id: Id, user: Id, n: nat)
    requires Lawful(env)
    requires NoFailure(env) && FreshIds(db0, env, n) && Going(p, env, user, n) && p.k + 3 < n
    requires id in p.db.invites && id !in p.taken
    ensures Going(TakeOne(p, env, id, p.db.invites[id].inviter, user), env, user, n)
  {
    if UseAnswer(p.db, env, p.k, id, user).Failed? {
      RefusedGoes(p, db0, env, id, p.db.invites[id].inviter, user, n);
    } else {
      TakenGoes(p, db0, env, id, user, n);
    }
  }

  lemma {:induction false} TakenAreRows(p: Progress, env: Env, rows: seq<Id>, found: map<Id, Invite>, main: Id, user: Id, id: Id)
    requires forall x :: x in rows ==> x in found
    ensures id in TakeRows(p, env, rows, found, main, user).taken ==> id in p.taken || (id in rows && id != main)
  {
    if rows != [] {
      TakenAreRows(p, env, rows[..|rows| - 1], found, main, user, id);
    }
  }

  lemma {:induction false} TakeRowsGoes(p: Progress, db0: Db, env: Env, rows: seq<Id>, main: Id, user: Id, n: nat)
    requires Lawful(env)
    requires NoFailure(env) && FreshIds(db0, env, n) && Going(p, env, user, n) && p.k + 4 * |rows| <= n
    requires Unrepeated(rows) && p.taken <= {main} && forall id :: id in rows ==> id in p.db.invites
    ensures var q := TakeRows(p, env, rows, p.db.invites, main, user); Going(q, env, user, n) && q.k <= p.k + 4 * |rows|
  {
    if rows != [] {
      var m := |rows| - 1;
      TakeRowsGoes(p, db0, env, rows[..m], main, user, n);
      TakeRowsKeeps(p, env, rows[..m], p.db.invites, main, user);
      var q := TakeRows(p, env, rows[..m], p.db.invites, main, user);
      if rows[m] != main {
        assert rows[m] in rows && InviteKept(p.db.invites[rows[m]], q.db.invites[rows[m]]);
        TakenAreRows(p, env, rows[..m], p.db.invites, main, user, rows[m]);
        TakeOneGoes(q, db0, env, rows[m], user, n);
      }
    }
  }

  lemma OpenedGoes(db: Db, env: Env, main: Id, user: Id, n: nat)
    requires Lawful(env)
    requires Inv(db) && NoFailure(env) && FreshIds(db, env, n) && 5 < n && user in db.t.users && main in At(db, env, 0).invites
    ensures Going(Opened(db, env, main, user), env, user, n) && Opened(db, env, main, user).k <= 5
    ensures Going(ListedFrom(db, env, main, user), env, user, n) && Opened(db, env, main, user).taken <= {main}
  {
    var at, p := At(db, env, 0), Opened(db, env, main, user);
    AtKeeps(db, env, 0);
    AtUnused(db, db, env, 0, 0, n);
    var start := Progress(at, [], {}, {}, 1);
    assert forall u :: !Authored(start, u);
    TakeOneGoes(start, db, env, main, user, n);
    AtUnused(p.db, db, env, p.k, p.k, n);
    OpeningKeeps(db, env, main, user);
    AuthorsKept(p, ListedFrom(db, env, main, user), user);
    LostKept(p, ListedFrom(db, env, main, user), user);
  }

  /**
   With no failing statement and new ids, the users returned are exactly the authors of the
   invites that were taken, this user excepted and those with whom another request made the DM
   between the SELECT and the INSERT of CreateDM.  With all of them the user has exactly one DM.
   */
  lemma WhoIsConnected(db: Db, env: Env, main: Id, user: Id, email: string, rows: seq<Id>, n: nat)
    requires Lawful(env)
    requires Inv(db) && NoFailure(env) && user in db.t.users && FreshIds(db, env, n) && 6 + 4 * |rows| <= n
    requires main in At(db, env, 0).invites && Listed(db, env, main, user, email, rows)
    ensures var q := RedeemedAll(db, env, main, user, email, rows);
            && q.k <= 6 + 4 * |rows|
            && (forall u :: u in q.connected <==> u != user && Authored(q, u))
            && (forall id :: id in q.taken ==> id in q.db.invites && AuthorHasDm(q, id, user))
  {
    OpenedGoes(db, env, main, user, n);
    if !MainFails(db, env, main, user) {
      TakeRowsGoes(ListedFrom(db, env, main, user), db, env, rows, main, user, n);
    }
    var q := RedeemedAll(db, env, main, user, email, rows);
    forall id | id in q.taken ensures AuthorHasDm(q, id, user) {
      assert id !in q.lost ==> AuthoredBy(q, id, q.db.invites[id].inviter);
    }
  }

  ghost predicate AuthorHasDm(p: Progress, id: Id, user: Id)
    requires id in p.db.invites
  {
    p.db.invites[id].inviter != user ==> ExactlyOneDm(p.db.t, p.db.invites[id].inviter, user)
  }

  // ---------------------------------------------------------------- which invites are taken

  /** Where an update that hits nothing is an error, an invite is taken only by becoming the user's. */
  ghost predicate Owned(p: Progress, user: Id) {
    forall id :: id in p.taken ==> id in p.db.invites && p.db.invites[id].usedBy == Some(user)
  }

  lemma OwnedKept(was: Db, now: Db, id: Id, user: Id)
    requires Inv(was) && Kept(was, now) && id in was.invites && was.invites[id].usedBy == Some(user)
    ensures id in now.invites && now.invites[id].usedBy == Some(user)
  {
    assert InviteOk(was.t, was.invites[id]) && InviteKept(was.invites[id], now.invites[id]);
  }

  lemma TakeOneOwned(p: Progress, env: Env, id: Id, inviter: Id, user: Id)
    requires Lawful(env)
    requires Inv(p.db) && WellConnected(p.db, p.connected, user) && Owned(p, user) && !env.noRowIsNil
    ensures Owned(TakeOne(p, env, id, inviter, user), user)
  {
    var used, q := UseDb(p.db, env, p.k, id, user), TakeOne(p, env, id, inviter, user);
    UseKeeps(p.db, env, p.k, id, user);
    TakeOneKeeps(p, env, id, inviter, user);
    forall x | x in q.taken ensures x in q.db.invites && q.db.invites[x].usedBy == Some(user) {
      if x in p.taken {
        OwnedKept(p.db, q.db, x, user);
      } else {
        OwnedKept(used, q.db, x, user);
      }
    }
  }

  lemma {:induction false} TakeRowsOwned(p: Progress, env: Env, rows: seq<Id>, found: map<Id, Invite>, main: Id, user: Id)
    requires Lawful(env)
    requires Inv(p.db) && WellConnected(p.db, p.connected, user) && Owned(p, user) && !env.noRowIsNil
    requires forall id :: id in rows ==> id in found
    ensures Owned(TakeRows(p, env, rows, found, main, user), user)
  {
    if rows != [] {
      var n := |rows| - 1;
      TakeRowsOwned(p, env, rows[..n], found, main, user);
      TakeRowsKeeps(p, env, rows[..n], found, main, user);
      if rows[n] != main {
        TakeOneOwned(TakeRows(p, env, rows[..n], found, main, user), env, rows[n], found[rows[n]].inviter, user);
      }
    }
  }

  lemma NilTakes(p: Progress, env: Env, id: Id, inviter: Id, user: Id)
    requires Lawful(env)
    requires Inv(p.db) && NoFailure(env) && env.noRowIsNil && user in p.db.t.users
    ensures TakeOne(p, env, id, inviter, user).taken == p.taken + {id}
  {
    AtKeeps(p.db, env, p.k);
  }

  function Except(rows: seq<Id>, main: Id): (ids: set<Id>)
    ensures forall id :: id in ids <==> id in rows && id != main
  {
    set id | id in rows && id != main
  }

  lemma ExceptSnoc(rows: seq<Id>, last: Id, main: Id)
    ensures Except(rows + [last], main) == Except(rows, main) + if last == main then {} else {last}
  {
  }

  /** Where it is answered by nil, every invite that was found counts as taken. */
  lemma {:induction false} TakeRowsTakes(p: Progress, env: Env, rows: seq<Id>, found: map<Id, Invite>, main: Id, user: Id)
    requires Lawful(env)
    requires Inv(p.db) && WellConnected(p.db, p.connected, user) && NoFailure(env) && env.noRowIsNil && user in p.db.t.users
    requires forall x :: x in rows ==> x in found
    ensures TakeRows(p, env, rows, found, main, user).taken == p.taken + Except(rows, main)
  {
    if rows != [] {
      var n := |rows| - 1;
      var q := TakeRows(p, env, rows[..n], found, main, user);
      TakeRowsTakes(p, env, rows[..n], found, main, user);
      TakeRowsKeeps(p, env, rows[..n], found, main, user);
      ExceptSnoc(rows[..n], rows[n], main);
      assert rows == rows[..n] + [rows[n]];
      if rows[n] != main {
        NilTakes(q, env, rows[n], found[rows[n]].inviter, user);
      }
    }
  }

  /** Which invites are taken by a call that does not end with an error. */
  lemma WhichAreTaken(db: Db, env: Env, main: Id, user: Id, email: string, rows: seq<Id>)
    requires Lawful(env)
    requires Inv(db) && NoFailure(env) && user in db.t.users
    requires main in At(db, env, 0).invites && Listed(db, env, main, user, email, rows) && !MainFails(db, env, main, user)
    ensures var q := RedeemedAll(db, env, main, user, email, rows);
            main in q.taken && if env.noRowIsNil then q.taken == {main} + Except(rows, main) else Owned(q, user)
  {
    OpeningKeeps(db, env, main, user);
    var p := ListedFrom(db, env, main, user);
    var start := Progress(At(db, env, 0), [], {}, {}, 1);
    if env.noRowIsNil {
      NilTakes(start, env, main, start.db.invites[main].inviter, user);
      TakeRowsTakes(p, env, rows, p.db.invites, main, user);
    } else {
      TakeOneOwned(start, env, main, start.db.invites[main].inviter, user);
      assert forall id :: id in p.taken ==> Kept(Opened(db, env, main, user).db, p.db);
      OwnedKept(Opened(db, env, main, user).db, p.db, main, user);
      TakeRowsOwned(p, env, rows, p.db.invites, main, user);
      TakenStay(p, env, rows, p.db.invites, main, user);
    }
  }

  lemma {:induction false} TakenStay(p: Progress, env: Env, rows: seq<Id>, found: map<Id, Invite>, main: Id, user: Id)
    requires forall x :: x in rows ==> x in found
    ensures p.taken <= TakeRows(p, env, rows, found, main, user).taken
    ensures forall u :: u in p.connected ==> u in TakeRows(p, env, rows, found, main, user).connected
  {
    if rows != [] {
      TakenStay(p, env, rows[..|rows| - 1], found, main, user);
    }
  }

  /**
   A call goes on although UseInvite has not made the invite its user's if and only if nil is
   the answer for no row and somebody else, or the clock, has closed the invite since the lookup.
   */
  lemma GoesOnWithoutInvite(db: Db, env: Env, main: Id, user: Id)
    requires Lawful(env)
    requires Inv(db) && NoFailure(env) && user in db.t.users && main in At(db, env, 0).invites
    ensures main in UseDb(At(db, env, 0), env, 1, main, user).invites && main in MainAt(db, env).invites
    ensures !MainFails(db, env, main, user) && UseDb(At(db, env, 0), env, 1, main, user).invites[main].usedBy != Some(user)
       <==> env.noRowIsNil && !Usable(MainAt(db, env), main, env.now(1)) && MainAt(db, env).invites[main].usedBy != Some(user)
  {
    MainFailsIff(db, env, main, user);
    AtKeeps(db, env, 0);
    UseKeeps(At(db, env, 0), env, 1, main, user);
    AtKeeps(At(db, env, 0), env, 1);
  }

  // ---------------------------------------------------------------- left alone

  ghost predicate Quiet(env: Env) {
    forall k, db :: At(db, env, k) == db
  }

  ghost predicate Mutual(db: Db, a: Id, b: Id) {
    (a, b) in db.contacts && (b, a) in db.contacts
  }

  ghost predicate Spent(was: Db, now: Db, id: Id) {
    id in was.invites && id in now.invites && was.invites[id].status == Pending && now.invites[id].status == Used
  }

  /** An invite that was not taken is as it was. */
  ghost predicate InviteAlone(db: Db, p: Progress, id: Id)
    requires id in db.invites && id in p.db.invites
  {
    if id in p.taken then InviteKept(db.invites[id], p.db.invites[id]) else p.db.invites[id] == db.invites[id]
  }

  ghost predicate InvitesAlone(db: Db, p: Progress) {
    && p.db.t.users == db.t.users
    && p.db.invites.Keys == db.invites.Keys
    && forall id :: id in db.invites ==> InviteAlone(db, p, id)
  }

  ghost predicate ContactsMade(p: Progress, user: Id) {
    forall u :: u in p.connected ==> Mutual(p.db, u, user)
  }

  ghost function QuietFriends(db: Db, env: Env, k: nat, a: Id, b: Id): Db {
    var made := Connected(db, a, b, env.freshId(k + 1));
    if Joined(made, a, b) then Befriended(made, a, b) else made
  }

  lemma QuietUse(db: Db, env: Env, k: nat, id: Id, user: Id)
    requires Quiet(env) && NoFailure(env) && user in db.t.users
    ensures UseDb(db, env, k, id, user) == Redeemed(db, id, user, env.now(k))
    ensures UseAnswer(db, env, k, id, user).Failed? <==> !env.noRowIsNil && !Usable(db, id, env.now(k))
  {
  }

  lemma QuietConnect(db: Db, env: Env, k: nat, a: Id, b: Id)
    requires Quiet(env) && NoFailure(env)
    ensures DmMade(db, env, k, a, b) <==> Joined(Connected(db, a, b, env.freshId(k + 1)), a, b)
    ensures ConnectDb(db, env, k, a, b) == QuietFriends(db, env, k, a, b)
  {
  }

  lemma AloneUse(db: Db, p: Progress, env: Env, id: Id, user: Id)
    requires InvitesAlone(db, p) && Quiet(env) && NoFailure(env) && id in db.invites && user in db.t.users
    ensures InvitesAlone(db, p.(db := UseDb(p.db, env, p.k, id, user), taken := p.taken + {id}))
    ensures UseAnswer(p.db, env, p.k, id, user).Failed? ==> UseDb(p.db, env, p.k, id, user) == p.db
    ensures UseDb(p.db, env, p.k, id, user).contacts == p.db.contacts
  {
    QuietUse(p.db, env, p.k, id, user);
    forall x | x in db.invites ensures
      InviteAlone(db, p.(db := UseDb(p.db, env, p.k, id, user), taken := p.taken + {id}), x)
    {
      assert InviteAlone(db, p, x);
    }
  }

  lemma AloneConnect(db: Db, env: Env, k: nat, inviter: Id, user: Id)
    requires Quiet(env) && NoFailure(env) && inviter in db.t.users && user in db.t.users
    ensures var q := ConnectDb(db, env, k, inviter, user);
            && q.invites == db.invites && q.t.users == db.t.users && db.contacts <= q.contacts
            && (DmMade(db, env, k, inviter, user) ==> Mutual(q, inviter, user))
  {
    QuietConnect(db, env, k, inviter, user);
  }

  lemma InvitesAdvance(db: Db, p: Progress, id: Id, inviter: Id, o: Outcome)
    requires InvitesAlone(db, p) && InvitesAlone(db, p.(db := o.used, taken := p.taken + {id}))
    requires o.failed ==> o.used == p.db
    requires o.after.invites == o.used.invites && o.after.t.users == o.used.t.users
    ensures InvitesAlone(db, Advanced(p, id, inviter, o))
  {
    var q := Advanced(p, id, inviter, o);
    forall x | x in db.invites ensures InviteAlone(db, q, x) {
      assert InviteAlone(db, p, x) && InviteAlone(db, p.(db := o.used, taken := p.taken + {id}), x);
    }
  }

  lemma ContactsAdvance(p: Progress, id: Id, inviter: Id, o: Outcome, user: Id)
    requires ContactsMade(p, user) && p.db.contacts <= o.used.contacts <= o.after.contacts
    requires o.made ==> Mutual(o.after, inviter, user)
    ensures ContactsMade(Advanced(p, id, inviter, o), user)
  {
  }

  lemma AloneOutcome(db: Db, p: Progress, env: Env, id: Id, inviter: Id, user: Id)
    requires InvitesAlone(db, p)
    requires Quiet(env) && NoFailure(env) && id in db.invites && inviter in db.t.users && user in db.t.users
    ensures var o := OutcomeOf(p.db, env, p.k, id, inviter, user);
            && InvitesAlone(db, p.(db := o.used, taken := p.taken + {id}))
            && (o.failed ==> o.used == p.db)
            && o.after.invites == o.used.invites && o.after.t.users == o.used.t.users
            && p.db.contacts == o.used.contacts <= o.after.contacts
            && (o.made ==> Mutual(o.after, inviter, user))
  {
    AloneUse(db, p, env, id, user);
    AloneConnect(UseDb(p.db, env, p.k, id, user), env, p.k + 1, inviter, user);
  }

  lemma AloneTake(db: Db, p: Progress, env: Env, id: Id, inviter: Id, user: Id)
    requires InvitesAlone(db, p) && ContactsMade(p, user)
    requires Quiet(env) && NoFailure(env) && id in db.invites && inviter in db.t.users && user in db.t.users
    ensures InvitesAlone(db, TakeOne(p, env, id, inviter, user)) && ContactsMade(TakeOne(p, env, id, inviter, user), user)
  {
    var o := OutcomeOf(p.db, env, p.k, id, inviter, user);
    AloneOutcome(db, p, env, id, inviter, user);
    InvitesAdvance(db, p, id, inviter, o);
    ContactsAdvance(p, id, inviter, o, user);
  }

  lemma {:induction false} AloneTakeRows(db: Db, p: Progress, env: Env, rows: seq<Id>, found: map<Id, Invite>, main: Id, user: Id)
    requires Lawful(env)
    requires Inv(db) && InvitesAlone(db, p) && ContactsMade(p, user) && Quiet(env) && NoFailure(env) && user in db.t.users
    requires forall id :: id in rows ==> id in found && id in db.invites && found[id].inviter == db.invites[id].inviter
    ensures var q := TakeRows(p, env, rows, found, main, user); InvitesAlone(db, q) && ContactsMade(q, user)
  {
    if rows != [] {
      var n := |rows| - 1;
      AloneTakeRows(db, p, env, rows[..n], found, main, user);
      if rows[n] != main {
        assert rows[n] in rows && InviteOk(db.t, db.invites[rows[n]]);
        AloneTake(db, TakeRows(p, env, rows[..n], found, main, user), env, rows[n], found[rows[n]].inviter, user);
      }
    }
  }

  /** Left alone, a call adds no invite, spends only what it takes, and makes contacts of all it connects. */
  lemma LeftAlone(db: Db, env: Env, main: Id, user: Id, email: string, rows: seq<Id>, id: Id)
    requires Lawful(env)
    requires Inv(db) && Quiet(env) && NoFailure(env) && user in db.t.users
    requires main in At(db, env, 0).invites && Listed(db, env, main, user, email, rows)
    ensures var q := RedeemedAll(db, env, main, user, email, rows);
            && q.db.invites.Keys == db.invites.Keys
            && (Spent(db, q.db, id) ==> id in q.taken)
            && (forall u :: u in q.connected ==> Mutual(q.db, u, user))
  {
    var start := Progress(At(db, env, 0), [], {}, {}, 1);
    assert start.db == db && InviteOk(db.t, db.invites[main]);
    AloneTake(db, start, env, main, db.invites[main].inviter, user);
    var q := RedeemedAll(db, env, main, user, email, rows);
    if !MainFails(db, env, main, user) {
      var p := ListedFrom(db, env, main, user);
      assert forall x :: x in db.invites ==> InviteAlone(db, Opened(db, env, main, user), x);
      AloneTakeRows(db, p, env, rows, p.db.invites, main, user);
    }
    if id in db.invites {
      assert InviteAlone(db, q, id);
    }
  }

  // ---------------------------------------------------------------- an existing user

  ghost predicate RedeemedBy(db: Db, id: Id, code: string, inviter: Id, user: Id) {
    id in db.invites && db.invites[id].code == code && db.invites[id].inviter == inviter && db.invites[id].usedBy == Some(user)
  }

  lemma RedeemedByKept(was: Db, now: Db, id: Id, code: string, inviter: Id, user: Id)
    requires Inv(was) && Kept(was, now) && RedeemedBy(was, id, code, inviter, user)
    ensures RedeemedBy(now, id, code, inviter, user)
  {
    assert InviteOk(was.t, was.invites[id]) && InviteKept(was.invites[id], now.invites[id]);
  }

  lemma ExistingUse(db: Db, env: Env, code: string, main: Id, user: Id)
    requires Lawful(env) && Inv(db) && Finds(db, env, code, main) && UseAnswer(At(db, env, 0), env, 1, main, user).Row?
    ensures var used := UseDb(At(db, env, 0), env, 1, main, user);
            Inv(used) && Kept(db, used) && RedeemedBy(used, main, code, At(db, env, 0).invites[main].inviter, user)
  {
    var at := At(db, env, 0);
    AtKeeps(db, env, 0);
    AtKeeps(at, env, 1);
    UseKeeps(at, env, 1, main, user);
    assert InviteKept(at.invites[main], At(at, env, 1).invites[main]);
    KeptTransitive(db, at, UseDb(at, env, 1, main, user));
  }

  lemma ConvStays(db: Db, env: Env, k: nat, inviter: Id, user: Id)
    requires Lawful(env) && Inv(db) && DmMade(db, env, k, inviter, user)
    ensures DmIs(ConnectDb(db, env, k, inviter, user).t, inviter, user, DmConv(db, env, k, inviter, user))
  {
    var made := DmDb(db, env, k, inviter, user);
    DmKeeps(db, env, k, inviter, user);
    MadeIsJoined(db, env, k, inviter, user);
    JoinedAreTwo(made, inviter, user);
    FriendKeeps(made, env, k + 2, inviter, user);
  }

  /** Success means that this user, and so nobody else, has the invite and a single DM with its author. */
  lemma ExistingOwns(db: Db, env: Env, code: string, main: Id, user: Id)
    requires Lawful(env) && Inv(db) && Finds(db, env, code, main) && ExistingAnswer(db, env, main, user).Success?
    ensures var (after, answer) := (ExistingDb(db, env, main, user), ExistingAnswer(db, env, main, user));
            && Inv(after) && Kept(db, after)
            && RedeemedBy(after, main, code, answer.inviter, user)
            && DmIs(after.t, answer.inviter, user, answer.conv) && ExactlyOneDm(after.t, answer.inviter, user)
  {
    var used, inviter := UseDb(At(db, env, 0), env, 1, main, user), At(db, env, 0).invites[main].inviter;
    ExistingUse(db, env, code, main, user);
    ConnectKeeps(used, env, 2, inviter, user);
    ConvStays(used, env, 2, inviter, user);
    KeptTransitive(db, used, ConnectDb(used, env, 2, inviter, user));
    RedeemedByKept(used, ConnectDb(used, env, 2, inviter, user), main, code, inviter, user);
  }

  /**
   With no failing statement and new ids it succeeds exactly for somebody else's invite that is
   still open when it is used, unless another request makes the DM inside its CreateDM.
   */
  lemma ExistingSucceedsIff(db: Db, env: Env, main: Id, user: Id)
    requires Lawful(env)
    requires Inv(db) && NoFailure(env) && FreshIds(db, env, 4) && user in db.t.users && main in At(db, env, 0).invites
    ensures ExistingAnswer(db, env, main, user).Success?
       <==> && Usable(MainAt(db, env), main, env.now(1)) && At(db, env, 0).invites[main].inviter != user
            && !Raced(UseDb(At(db, env, 0), env, 1, main, user), env, 2, At(db, env, 0).invites[main].inviter, user)
  {
    var at := At(db, env, 0);
    var used, inviter := UseDb(at, env, 1, main, user), at.invites[main].inviter;
    AtKeeps(db, env, 0);
    AtKeeps(at, env, 1);
    UseKeeps(at, env, 1, main, user);
    AtUnused(db, db, env, 0, 0, 4);
    UseUnused(at, db, env, 1, main, user, 4);
    assert InviteOk(at.t, at.invites[main]);
    FreshDmIsMade(used, db, env, 2, inviter, user, 4);
  }

  /** In that race the reply is an error although the invite is the user's and the two have their DM. */
  lemma RacedExisting(db: Db, env: Env, code: string, main: Id, user: Id)
    requires Lawful(env) && Inv(db) && Finds(db, env, code, main) && UseAnswer(At(db, env, 0), env, 1, main, user).Row?
    requires Raced(UseDb(At(db, env, 0), env, 1, main, user), env, 2, At(db, env, 0).invites[main].inviter, user)
    ensures var (after, inviter) := (ExistingDb(db, env, main, user), At(db, env, 0).invites[main].inviter);
            && ExistingAnswer(db, env, main, user) == InternalError
            && RedeemedBy(after, main, code, inviter, user) && ExactlyOneDm(after.t, inviter, user)
  {
    var used, inviter := UseDb(At(db, env, 0), env, 1, main, user), At(db, env, 0).invites[main].inviter;
    ExistingUse(db, env, code, main, user);
    ConnectKeeps(used, env, 2, inviter, user);
    RedeemedByKept(used, ConnectDb(used, env, 2, inviter, user), main, code, inviter, user);
  }

  /** Left alone, the two are contacts then. */
  lemma ExistingContacts(db: Db, env: Env, main: Id, user: Id)
    requires Lawful(env)
    requires Inv(db) && Quiet(env) && NoFailure(env) && user in db.t.users && main in At(db, env, 0).invites
    requires ExistingAnswer(db, env, main, user).Success?
    ensures Mutual(ExistingDb(db, env, main, user), ExistingAnswer(db, env, main, user).inviter, user)
  {
    assert InviteOk(db.t, db.invites[main]);
    QuietUse(db, env, 1, main, user);
    AloneConnect(UseDb(db, env, 1, main, user), env, 2, db.invites[main].inviter, user);
  }

  // ---------------------------------------------------------------- a lost race

  /** Two invites to one address, `first` by `a` and `second` by `b`; `c` is new, `d` is a rival. */
  ghost function TwoInvites(a: Id, b: Id, c: Id, d: Id, first: Id, second: Id): seq<Step> {
    [Register(a), Register(b), Register(c), Register(d), Create(first, a, "one", "c@x", 9), Create(second, b, "two", "c@x", 9)]
  }

  /** The rival uses the first invite between the new user's lookup and UseInvite. */
  ghost function Rival(d: Id, first: Id, convId: Id, noRowIsNil: bool): Env {
    Env((k, db) => if k == 1 then Redeemed(db, first, d, 5) else db, k => 5, k => false, k => convId, noRowIsNil)
  }

  lemma RunSnoc(db: Db, steps: seq<Step>, step: Step)
    ensures RunFrom(db, steps + [step]) == Next(RunFrom(db, steps), step)
  {
    assert (steps + [step])[..|steps|] == steps;
  }

  lemma TwoInvitesOpen(a: Id, b: Id, c: Id, d: Id, first: Id, second: Id) returns (db: Db)
    requires first != second
    ensures db == RunFrom(EMPTY_DB, TwoInvites(a, b, c, d, first, second)) && Inv(db)
    ensures db == Db(Conversations.Tables({a, b, c, d}, map[], map[], map[]),
                     map[first := Invite(a, "one", "c@x", Pending, None, None, 9),
                         second := Invite(b, "two", "c@x", Pending, None, None, 9)], {})
  {
    var steps := TwoInvites(a, b, c, d, first, second);
    db := RunFrom(EMPTY_DB, steps);
    EmptyOk();
    RunKeeps(EMPTY_DB, steps);
    var registered := [Register(a)] + [Register(b)] + [Register(c)] + [Register(d)];
    assert [] + [Register(a)] == [Register(a)];
    RunSnoc(EMPTY_DB, [], Register(a));
    RunSnoc(EMPTY_DB, [Register(a)], Register(b));
    RunSnoc(EMPTY_DB, [Register(a)] + [Register(b)], Register(c));
    RunSnoc(EMPTY_DB, [Register(a)] + [Register(b)] + [Register(c)], Register(d));
    var users := Db(Conversations.Tables({a, b, c, d}, map[], map[], map[]), map[], {});
    assert RunFrom(EMPTY_DB, registered) == users;
    RunSnoc(EMPTY_DB, registered, Create(first, a, "one", "c@x", 9));
    RunSnoc(EMPTY_DB, registered + [Create(first, a, "one", "c@x", 9)], Create(second, b, "two", "c@x", 9));
    assert steps == registered + [Create(first, a, "one", "c@x", 9)] + [Create(second, b, "two", "c@x", 9)];
    assert "one" != "two";
  }

  /**
   Where no row is an error, losing the race ends the call at once: the other invite to the
   address stays open.
   */
  lemma LostRaceLeavesInvites(a: Id, b: Id, c: Id, d: Id, first: Id, second: Id, convId: Id, db: Db, env: Env)
    requires first != second && db == RunFrom(EMPTY_DB, TwoInvites(a, b, c, d, first, second))
    requires env == Rival(d, first, convId, false)
    ensures Lawful(env) && Finds(db, env, "one", first) && Listed(db, env, first, c, "c@x", [])
    ensures var q := RedeemedAll(db, env, first, c, "c@x", []);
            MainFails(db, env, first, c) && q.connected == [] && Usable(q.db, second, 5)
  {
    var same := TwoInvitesOpen(a, b, c, d, first, second);
    RivalTakes(same, a, b, c, d, first, second, convId, false);
    RivalIsLawful(d, first, convId, false);
  }

  lemma RivalTakes(db: Db, a: Id, b: Id, c: Id, d: Id, first: Id, second: Id, convId: Id, noRowIsNil: bool)
    requires first != second
    requires db == Db(Conversations.Tables({a, b, c, d}, map[], map[], map[]),
                      map[first := Invite(a, "one", "c@x", Pending, None, None, 9),
                          second := Invite(b, "two", "c@x", Pending, None, None, 9)], {})
    ensures var env := Rival(d, first, convId, noRowIsNil);
            && At(db, env, 0) == db
            && MainAt(db, env) == Redeemed(db, first, d, 5) == UseDb(db, env, 1, first, c)
            && UseAnswer(db, env, 1, first, c) == (if noRowIsNil then NoRow else Failed)
  {
    var env := Rival(d, first, convId, noRowIsNil);
    assert Redeemed(Redeemed(db, first, d, 5), first, c, 5) == Redeemed(db, first, d, 5);
  }

  /** Where it is nil, the call goes on: the invite is the rival's, and the new user is connected with its author all the same. */
  lemma LoserIsConnected(a: Id, b: Id, c: Id, d: Id, first: Id, second: Id, convId: Id, db: Db, env: Env, rows: seq<Id>)
    requires first != second && a != c && c != d
    requires db == RunFrom(EMPTY_DB, TwoInvites(a, b, c, d, first, second)) && env == Rival(d, first, convId, true)
    requires first in At(db, env, 0).invites ==> Listed(db, env, first, c, "c@x", rows)
    ensures Lawful(env) && Finds(db, env, "one", first)
    ensures var q := RedeemedAll(db, env, first, c, "c@x", rows);
            a in q.connected && first in q.db.invites && q.db.invites[first].usedBy == Some(d)
  {
    var same := TwoInvitesOpen(a, b, c, d, first, second);
    RivalTakes(same, a, b, c, d, first, second, convId, true);
    RivalIsLawful(d, first, convId, true);
    LoserOpens(same, env, a, c, d, first);
    LoserEnds(same, env, a, c, d, first, rows);
  }

  lemma LoserEnds(db: Db, env: Env, a: Id, c: Id, d: Id, first: Id, rows: seq<Id>)
    requires Lawful(env) && Inv(db) && first in At(db, env, 0).invites && !MainFails(db, env, first, c)
    requires Listed(db, env, first, c, "c@x", rows) && a in Opened(db, env, first, c).connected
    requires first in Opened(db, env, first, c).db.invites && Opened(db, env, first, c).db.invites[first].usedBy == Some(d)
    ensures var q := RedeemedAll(db, env, first, c, "c@x", rows);
            a in q.connected && first in q.db.invites && q.db.invites[first].usedBy == Some(d)
  {
    var p, q := ListedFrom(db, env, first, c), RedeemedAll(db, env, first, c, "c@x", rows);
    OpeningKeeps(db, env, first, c);
    TakenStay(p, env, rows, p.db.invites, first, c);
    CallKeeps(db, env, first, c, "c@x", rows);
    OwnedKept(Opened(db, env, first, c).db, q.db, first, d);
  }

  lemma NothingIsRun(db: Db)
    ensures IsRun(db, db)
  {
    assert db == RunFrom(db, []);
  }

  lemma StepIsRun(db: Db, step: Step)
    ensures IsRun(db, Next(db, step))
  {
    RunSnoc(db, [], step);
    assert Next(db, step) == RunFrom(db, [] + [step]);
  }

  lemma RivalIsLawful(d: Id, first: Id, convId: Id, noRowIsNil: bool)
    ensures Lawful(Rival(d, first, convId, noRowIsNil))
  {
    forall k, db ensures IsRun(db, At(db, Rival(d, first, convId, noRowIsNil), k)) {
      NothingIsRun(db);
      StepIsRun(db, Use(first, d, 5));
    }
  }

  lemma LoserOpens(db: Db, env: Env, a: Id, c: Id, d: Id, first: Id)
    requires Lawful(env)
    requires Inv(db) && At(db, env, 0) == db && first in db.invites && db.invites[first].inviter == a
    requires {a, c, d} <= db.t.users && db.t.convs == map[] && a != c && c != d && !env.fails(2) && !env.fails(3)
    requires Usable(db, first, 5) && UseDb(db, env, 1, first, c) == Redeemed(db, first, d, 5)
    requires var used := UseDb(db, env, 1, first, c); At(used, env, 2) == At(used, env, 3) == used
    requires UseAnswer(db, env, 1, first, c).NoRow?
    ensures var p := Opened(db, env, first, c);
            Inv(p.db) && a in p.connected && first in p.db.invites && p.db.invites[first].usedBy == Some(d)
  {
    var used := UseDb(db, env, 1, first, c);
    UseKeeps(db, env, 1, first, c);
    TakeOneKeeps(Progress(db, [], {}, {}, 1), env, first, a, c);
    FirstDmIsMade(used, env, 2, a, c);
    OwnedKept(used, Opened(db, env, first, c).db, first, d);
  }

  lemma FirstDm(db: Db, a: Id, c: Id, id: Id)
    requires {a, c} <= db.t.users && db.t.convs == map[] && a != c && DmsOk(db.t)
    ensures !Joined(db, a, c) && Joined(Connected(db, a, c, id), a, c)
  {
    Conversations.OrderedMeetsCheck(a, c);
    ConnectedIs(db, a, c, id);
  }

  lemma FirstDmIsMade(db: Db, env: Env, k: nat, a: Id, c: Id)
    requires {a, c} <= db.t.users && db.t.convs == map[] && a != c && DmsOk(db.t)
    requires !env.fails(k) && !env.fails(k + 1) && At(db, env, k) == At(db, env, k + 1) == db
    ensures DmMade(db, env, k, a, c)
  {
    FirstDm(db, a, c, env.freshId(k + 1));
  }

  // ---------------------------------------------------------------- a lost race for the DM

  /** The inviter opens the DM between the SELECT and the INSERT of the new user's CreateDM. */
  ghost function Meeting(a: Id, c: Id, convId: Id, ownId: Id): Env {
    Env((k, db) => if k == 3 then Connected(db, a, c, convId) else db, k => 5, k => false, k => ownId, false)
  }

  lemma MeetingAt(db: Db, a: Id, c: Id, convId: Id, ownId: Id, k: nat)
    ensures At(db, Meeting(a, c, convId, ownId), k) == if k == 3 then Connected(db, a, c, convId) else db
  {
  }

  lemma ConnectIsRun(db: Db, a: Id, c: Id, id: Id)
    ensures IsRun(db, Connected(db, a, c, id))
  {
    ConnectStep(db, a, c, id);
    StepIsRun(db, Connect(a, c, id));
  }

  lemma ConnectStep(db: Db, a: Id, c: Id, id: Id)
    ensures Next(db, Connect(a, c, id)) == Connected(db, a, c, id)
  {
  }

  lemma MeetingIsLawful(a: Id, c: Id, convId: Id, ownId: Id)
    ensures Lawful(Meeting(a, c, convId, ownId))
  {
    forall k, db ensures IsRun(db, At(db, Meeting(a, c, convId, ownId), k)) {
      MeetingAt(db, a, c, convId, ownId, k);
      ConnectIsRun(db, a, c, convId);
      NothingIsRun(db);
    }
  }

  lemma ConnectRaces(db: Db, env: Env, k: nat, a: Id, c: Id, id: Id)
    requires {a, c} <= db.t.users && db.t.convs == map[] && DmsOk(db.t) && a != c && !env.fails(k)
    requires At(db, env, k) == db && At(db, env, k + 1) == Connected(db, a, c, id)
    ensures Raced(db, env, k, a, c)
  {
    FirstDm(db, a, c, id);
  }

  lemma MeetingEnds(db: Db, env: Env, a: Id, c: Id, first: Id, convId: Id)
    requires Lawful(env) && Inv(db) && Finds(db, env, "one", first) && At(db, env, 0) == db && db.invites[first].inviter == a
    requires {a, c} <= db.t.users && db.t.convs == map[] && a != c && !env.fails(2) && UseAnswer(db, env, 1, first, c).Row?
    requires var used := UseDb(db, env, 1, first, c);
             used.t == db.t && At(used, env, 2) == used && At(used, env, 3) == Connected(used, a, c, convId)
    ensures ExistingAnswer(db, env, first, c) == InternalError
    ensures var after := ExistingDb(db, env, first, c); RedeemedBy(after, first, "one", a, c) && ExactlyOneDm(after.t, a, c)
  {
    ConnectRaces(UseDb(db, env, 1, first, c), env, 2, a, c, convId);
    RacedExisting(db, env, "one", first, c);
  }

  lemma MeetingStarts(db: Db, a: Id, c: Id, first: Id, convId: Id, ownId: Id)
    requires Usable(db, first, 5) && c in db.t.users
    ensures var (env, used) := (Meeting(a, c, convId, ownId), Redeemed(db, first, c, 5));
            && At(db, env, 0) == db && UseAnswer(db, env, 1, first, c) == Row && UseDb(db, env, 1, first, c) == used
            && At(used, env, 2) == used && At(used, env, 3) == Connected(used, a, c, convId)
  {
    var used := Redeemed(db, first, c, 5);
    MeetingAt(db, a, c, convId, ownId, 0);
    MeetingAt(db, a, c, convId, ownId, 1);
    MeetingAt(used, a, c, convId, ownId, 2);
    MeetingAt(used, a, c, convId, ownId, 3);
  }

  lemma MeetingFails(db: Db, env: Env, a: Id, c: Id, first: Id, convId: Id, ownId: Id)
    requires env == Meeting(a, c, convId, ownId)
    requires Inv(db) && Usable(db, first, 5) && db.invites[first].code == "one" && db.invites[first].inviter == a
    requires {a, c} <= db.t.users && db.t.convs == map[] && a != c
    ensures Lawful(env) && Finds(db, env, "one", first) && ExistingAnswer(db, env, first, c) == InternalError
    ensures RedeemedBy(ExistingDb(db, env, first, c), first, "one", a, c)
    ensures ExactlyOneDm(ExistingDb(db, env, first, c).t, a, c)
  {
    MeetingIsLawful(a, c, convId, ownId);
    MeetingStarts(db, a, c, first, convId, ownId);
    assert !env.fails(0) && !env.fails(2) && env.now(0) == 5;
    MeetingEnds(db, env, a, c, first, convId);
  }

  /** The existing user's redemption is answered with an error, although the invite is theirs and the DM is there. */
  lemma MeetingIsAnError(a: Id, b: Id, c: Id, d: Id, first: Id, second: Id, convId: Id, ownId: Id, db: Db, env: Env)
    requires first != second && a != c
    requires db == RunFrom(EMPTY_DB, TwoInvites(a, b, c, d, first, second)) && env == Meeting(a, c, convId, ownId)
    ensures Lawful(env) && Finds(db, env, "one", first)
    ensures ExistingAnswer(db, env, first, c) == InternalError
    ensures var after := ExistingDb(db, env, first, c); RedeemedBy(after, first, "one", a, c) && ExactlyOneDm(after.t, a, c)
  {
    var same := TwoInvitesOpen(a, b, c, d, first, second);
    MeetingFails(same, env, a, c, first, convId, ownId);
  }
}
