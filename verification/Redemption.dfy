/**
 Redeeming an invite (handlers_invite.go): several statements, with the statements of other
 requests in between.  `Env` says what happens around the k-th statement: what the others do
 just before, what time it is, whether the database fails it, and the id generated for it.

 The functions say exactly which database and which answer every statement and every call
 leaves, for any environment; the methods compute them.
 */
module Redemption {
  import opened Prelude
  import opened Uuid
  import opened Invites
  import Conversations

  /**
   `noRowIsNil`: whether the driver's "no rows" error is the one the store compares with, so
   that an UPDATE that hits nothing is answered by nil rather than by an error.
   */
  datatype Env = Env(others: (nat, Db) -> Db, now: nat -> Time, fails: nat -> bool, freshId: nat -> Id, noRowIsNil: bool)

  // ---------------------------------------------------------------- one statement

  /** The database as the k-th statement finds it. */
  function At(db: Db, env: Env, k: nat): Db {
    env.others(k, db)
  }

  ghost predicate IsRun(was: Db, now: Db) {
    exists steps :: now == RunFrom(was, steps)
  }

  /** The others do nothing but perform statements, any number of them. */
  ghost predicate Lawful(env: Env) {
    forall k, db :: IsRun(db, At(db, env, k))
  }

  lemma AtKeeps(db: Db, env: Env, k: nat)
    requires Lawful(env) && Inv(db)
    ensures Inv(At(db, env, k)) && Kept(db, At(db, env, k))
  {
    assert IsRun(db, At(db, env, k));
    var steps :| At(db, env, k) == RunFrom(db, steps);
    RunKeeps(db, steps);
  }

  datatype UseReply = Row | NoRow | Failed

  ghost function UseDb(db: Db, env: Env, k: nat, id: Id, user: Id): Db {
    if env.fails(k) then At(db, env, k) else Redeemed(At(db, env, k), id, user, env.now(k))
  }

  ghost function UseAnswer(db: Db, env: Env, k: nat, id: Id, user: Id): UseReply {
    var at := At(db, env, k);
    if env.fails(k) then Failed
    else if Usable(at, id, env.now(k)) then (if user in at.t.users then Row else Failed)
    else if env.noRowIsNil then NoRow
    else Failed
  }

  /** The INSERT of CreateDM. */
  ghost function InsertDb(db: Db, env: Env, k: nat, inviter: Id, user: Id): Db {
    if env.fails(k) then At(db, env, k) else Connected(At(db, env, k), inviter, user, env.freshId(k))
  }

  /** It meets the unique constraint if another request has made the DM by then. */
  ghost predicate Inserted(db: Db, env: Env, k: nat, inviter: Id, user: Id) {
    && !env.fails(k) && !Joined(At(db, env, k), inviter, user)
    && Joined(InsertDb(db, env, k, inviter, user), inviter, user)
  }

  /**
   CreateDM: its SELECT, statement k, and then the INSERT, or the SELECT of the conversation that
   was found, as statement k + 1.
   */
  ghost function DmDb(db: Db, env: Env, k: nat, inviter: Id, user: Id): Db {
    var at := At(db, env, k);
    if env.fails(k) then at
    else if Joined(at, inviter, user) then At(at, env, k + 1)
    else InsertDb(at, env, k + 1, inviter, user)
  }

  /** CreateDM succeeds. */
  ghost predicate DmMade(db: Db, env: Env, k: nat, inviter: Id, user: Id) {
    var at := At(db, env, k);
    !env.fails(k) && if Joined(at, inviter, user) then !env.fails(k + 1) else Inserted(at, env, k + 1, inviter, user)
  }

  /** The conversation that it returns. */
  ghost function DmConv(db: Db, env: Env, k: nat, inviter: Id, user: Id): Id
    requires DmMade(db, env, k, inviter, user)
  {
    var at := At(db, env, k);
    var t := if Joined(at, inviter, user) then at.t else DmDb(db, env, k, inviter, user).t;
    Conversations.DmOf(t, Conversations.Ordered(inviter, user))
  }

  /** Another request makes the DM between the SELECT and the INSERT. */
  ghost predicate Raced(db: Db, env: Env, k: nat, inviter: Id, user: Id) {
    var at := At(db, env, k);
    !env.fails(k) && !Joined(at, inviter, user) && Joined(At(at, env, k + 1), inviter, user)
  }

  ghost function FriendDb(db: Db, env: Env, k: nat, a: Id, b: Id): Db {
    if env.fails(k) then At(db, env, k) else Befriended(At(db, env, k), a, b)
  }

  /** CreateDM from statement k on and, once it has succeeded, AddContact as statement k + 2. */
  ghost function ConnectDb(db: Db, env: Env, k: nat, inviter: Id, user: Id): Db {
    var made := DmDb(db, env, k, inviter, user);
    if DmMade(db, env, k, inviter, user) then FriendDb(made, env, k + 2, inviter, user) else made
  }

  // ---------------------------------------------------------------- a whole call

  /**
   `taken`: the invites whose UseInvite returned no error; `lost`: those of them whose CreateDM
   lost a race for the DM.  `k`: the number of the next statement.
   */
  datatype Progress = Progress(db: Db, connected: seq<Id>, taken: set<Id>, lost: set<Id>, k: nat)

  /** What the three statements for one invite come to: the answers, and the databases after the first and the last. */
  datatype Outcome = Outcome(failed: bool, raced: bool, made: bool, used: Db, after: Db)

  ghost function Advanced(p: Progress, id: Id, inviter: Id, o: Outcome): Progress {
    if o.failed then p.(db := o.used, k := p.k + 1)
    else Progress(o.after, if o.made then p.connected + [inviter] else p.connected, p.taken + {id},
                  if o.raced then p.lost + {id} else p.lost, if o.made then p.k + 4 else p.k + 3)
  }

  ghost function OutcomeOf(db: Db, env: Env, k: nat, id: Id, inviter: Id, user: Id): Outcome {
    var used := UseDb(db, env, k, id, user);
    Outcome(UseAnswer(db, env, k, id, user).Failed?, Raced(used, env, k + 1, inviter, user),
            DmMade(used, env, k + 1, inviter, user), used, ConnectDb(used, env, k + 1, inviter, user))
  }

  ghost function TakeOne(p: Progress, env: Env, id: Id, inviter: Id, user: Id): Progress {
    Advanced(p, id, inviter, OutcomeOf(p.db, env, p.k, id, inviter, user))
  }

  /** The loop over the rows that were found, with `found` the rows as they were read. */
  ghost function TakeRows(p: Progress, env: Env, rows: seq<Id>, found: map<Id, Invite>, main: Id, user: Id): Progress
    requires forall id :: id in rows ==> id in found
  {
    if rows == [] then p
    else
      var n := |rows| - 1;
      assert rows[n] in rows && forall id :: id in rows[..n] ==> id in rows;
      var q := TakeRows(p, env, rows[..n], found, main, user);
      if rows[n] == main then q else TakeOne(q, env, rows[n], found[rows[n]].inviter, user)
  }

  /** The lookup, statement 0, leads from the code to the invite. */
  ghost predicate Finds(db: Db, env: Env, code: string, id: Id) {
    !env.fails(0) && Usable(At(db, env, 0), id, env.now(0)) && At(db, env, 0).invites[id].code == code
  }

  /** The error return after UseInvite of the invite itself, statement 1. */
  ghost predicate MainFails(db: Db, env: Env, main: Id, user: Id) {
    UseAnswer(At(db, env, 0), env, 1, main, user).Failed?
  }

  ghost function Opened(db: Db, env: Env, main: Id, user: Id): Progress
    requires main in At(db, env, 0).invites
  {
    var at := At(db, env, 0);
    TakeOne(Progress(at, [], {}, {}, 1), env, main, at.invites[main].inviter, user)
  }

  /** The call after its GetPendingInvitesByEmail, and in it the database that was read, if it gets there. */
  ghost function ListedFrom(db: Db, env: Env, main: Id, user: Id): Progress
    requires main in At(db, env, 0).invites
  {
    var p := Opened(db, env, main, user);
    p.(db := At(p.db, env, p.k), k := p.k + 1)
  }

  ghost predicate Listed(db: Db, env: Env, main: Id, user: Id, email: string, rows: seq<Id>)
    requires main in At(db, env, 0).invites
  {
    var k := Opened(db, env, main, user).k;
    if MainFails(db, env, main, user) || env.fails(k) then rows == []
    else IsListing(ListedFrom(db, env, main, user).db, email, env.now(k), rows)
  }

  /** All of RedeemInviteCode once the lookup has led to `main`. */
  ghost function RedeemedAll(db: Db, env: Env, main: Id, user: Id, email: string, rows: seq<Id>): Progress
    requires main in At(db, env, 0).invites && Listed(db, env, main, user, email, rows)
  {
    if MainFails(db, env, main, user) then Opened(db, env, main, user)
    else
      var p := ListedFrom(db, env, main, user);
      TakeRows(p, env, rows, p.db.invites, main, user)
  }

  datatype Answer = Success(inviter: Id, conv: Id) | NotFound | InternalError

  ghost function ExistingDb(db: Db, env: Env, main: Id, user: Id): Db
    requires main in At(db, env, 0).invites
  {
    var at := At(db, env, 0);
    var used := UseDb(at, env, 1, main, user);
    if UseAnswer(at, env, 1, main, user).Row? then ConnectDb(used, env, 2, at.invites[main].inviter, user) else used
  }

  /** The reply of handleRedeemInviteExisting once the lookup has led to `main`. */
  ghost function ExistingAnswer(db: Db, env: Env, main: Id, user: Id): Answer
    requires main in At(db, env, 0).invites
  {
    var at := At(db, env, 0);
    var inviter := at.invites[main].inviter;
    var used := UseDb(at, env, 1, main, user);
    match UseAnswer(at, env, 1, main, user)
    case NoRow => NotFound
    case Failed => InternalError
    case Row =>
      if DmMade(used, env, 2, inviter, user)
      then Success(inviter, DmConv(used, env, 2, inviter, user))
      else InternalError
  }

  // ---------------------------------------------------------------- the handlers

  /** The other requests, just before statement k. */
  method Others(db: Store, env: Env, k: nat)
    modifies db, db.dm
    ensures db.View() == At(old(db.View()), env, k)
  {
    var now := At(db.View(), env, k);
    db.invites, db.contacts := now.invites, now.contacts;
    db.dm.users, db.dm.convs, db.dm.pairs, db.dm.members := now.t.users, now.t.convs, now.t.pairs, now.t.members;
  }

  method Consume(db: Store, env: Env, k: nat, id: Id, user: Id) returns (r: UseReply)
    modifies db, db.dm
    ensures db.View() == UseDb(old(db.View()), env, k, id, user)
    ensures r == UseAnswer(old(db.View()), env, k, id, user)
  {
    Others(db, env, k);
    if env.fails(k) {
      return Failed;
    }
    var ok, used := db.UseInvite(id, user, env.now(k));
    r := if !ok then Failed else if used then Row else if env.noRowIsNil then NoRow else Failed;
  }

  ghost predicate DmIs(t: Conversations.Tables, a: Id, b: Id, conv: Id) {
    conv in t.pairs && t.pairs[conv] == Conversations.Ordered(a, b)
  }

  /** `conv` is the DM that was found, or the one that was made. */
  ghost predicate DmFound(db: Db, env: Env, k: nat, inviter: Id, user: Id, conv: Id) {
    var at := At(db, env, k);
    DmIs(if Joined(at, inviter, user) then at.t else DmDb(db, env, k, inviter, user).t, inviter, user, conv)
  }

  lemma ConnectedIs(db: Db, a: Id, b: Id, id: Id)
    ensures match Conversations.InsertDm(db.t, id, Conversations.Ordered(a, b))
            case Ok(t) =>
              && Connected(db, a, b, id) == db.(t := t) && DmIs(t, a, b, id)
              && !Joined(db, a, b) && Joined(db.(t := t), a, b)
            case Err(_) => Connected(db, a, b, id) == db
  {
    if Conversations.InsertDm(db.t, id, Conversations.Ordered(a, b)).Ok? {
      assert DmIs(Conversations.InsertDm(db.t, id, Conversations.Ordered(a, b)).value, a, b, id);
    }
  }

  method InsertDm(db: Store, env: Env, k: nat, inviter: Id, user: Id) returns (conv: Option<Id>)
    modifies db, db.dm
    ensures db.View() == InsertDb(old(db.View()), env, k, inviter, user)
    ensures conv.Some? <==> Inserted(old(db.View()), env, k, inviter, user)
    ensures conv.Some? ==> DmIs(db.View().t, inviter, user, conv.value)
  {
    Others(db, env, k);
    if env.fails(k) {
      return None;
    }
    ghost var at := db.View();
    ConnectedIs(at, inviter, user, env.freshId(k));
    var r := db.dm.InsertDM(inviter, user, env.freshId(k));
    match r
    case Ok(id) => conv := Some(id);
    case Err(_) => conv := None;
  }

  method OpenDm(db: Store, env: Env, k: nat, inviter: Id, user: Id) returns (conv: Option<Id>)
    modifies db, db.dm
    ensures db.View() == DmDb(old(db.View()), env, k, inviter, user)
    ensures conv.Some? <==> DmMade(old(db.View()), env, k, inviter, user)
    ensures conv.Some? ==> DmFound(old(db.View()), env, k, inviter, user, conv.value)
  {
    Others(db, env, k);
    if env.fails(k) {
      return None;
    }
    conv := db.dm.FindDM(inviter, user);
    if conv.Some? {
      Others(db, env, k + 1);
      return (if env.fails(k + 1) then None else conv);
    }
    conv := InsertDm(db, env, k + 1, inviter, user);
  }

  method Befriend(db: Store, env: Env, k: nat, a: Id, b: Id)
    modifies db, db.dm
    ensures db.View() == FriendDb(old(db.View()), env, k, a, b)
  {
    Others(db, env, k);
    if !env.fails(k) {
      var _ := db.AddContact(a, b);
    }
  }

  /** The DM first; a contact only once there is one. */
  method ConnectInviter(db: Store, env: Env, k: nat, inviter: Id, user: Id) returns (conv: Option<Id>)
    modifies db, db.dm
    ensures db.View() == ConnectDb(old(db.View()), env, k, inviter, user)
    ensures conv.Some? <==> DmMade(old(db.View()), env, k, inviter, user)
    ensures conv.Some? ==> DmFound(old(db.View()), env, k, inviter, user, conv.value)
  {
    conv := OpenDm(db, env, k, inviter, user);
    if conv.Some? {
      Befriend(db, env, k + 2, inviter, user);
    }
  }

  ghost predicate IsAt(p: Progress, db: Store, connected: seq<Id>, k: nat)
    reads db, db.dm
  {
    p.db == db.View() && p.connected == connected && p.k == k
  }

  /** UseInvite, CreateDM and AddContact for one invite, from statement k on. */
  method TakeInvite(db: Store, env: Env, k: nat, id: Id, inviter: Id, user: Id, before: seq<Id>, ghost p: Progress)
    returns (failed: bool, connected: seq<Id>, next: nat, ghost q: Progress)
    requires IsAt(p, db, before, k)
    modifies db, db.dm
    ensures q == TakeOne(p, env, id, inviter, user) && IsAt(q, db, connected, next)
    ensures failed <==> UseAnswer(p.db, env, k, id, user).Failed?
  {
    connected, next, q := before, k + 1, TakeOne(p, env, id, inviter, user);
    var r := Consume(db, env, k, id, user);
    failed := r.Failed?;
    if !failed {
      var conv := ConnectInviter(db, env, k + 1, inviter, user);
      next := k + 3;
      if conv.Some? {
        connected, next := before + [inviter], k + 4;
      }
    }
  }

  /** The loop over the other invites sent to the address. */
  method RedeemOthers(db: Store, env: Env, k: nat, rows: seq<Id>, found: map<Id, Invite>, main: Id, user: Id,
                      before: seq<Id>, ghost p: Progress)
    returns (connected: seq<Id>, next: nat, ghost q: Progress)
    requires IsAt(p, db, before, k) && forall id :: id in rows ==> id in found
    modifies db, db.dm
    ensures q == TakeRows(p, env, rows, found, main, user) && IsAt(q, db, connected, next)
  {
    connected, next, q := before, k, p;
    for i := 0 to |rows|
      invariant q == TakeRows(p, env, rows[..i], found, main, user) && IsAt(q, db, connected, next)
    {
      assert rows[..i + 1][..i] == rows[..i];
      if rows[i] == main {
        continue;
      }
      var otherFailed;
      otherFailed, connected, next, q := TakeInvite(db, env, next, rows[i], found[rows[i]].inviter, user, connected, q);
    }
    assert rows[..|rows|] == rows;
  }

  /** The lookup of both handlers. */
  method LookUp(db: Store, env: Env, code: string) returns (found: Option<Id>)
    requires Lawful(env)
    requires Inv(db.View())
    modifies db, db.dm
    ensures db.View() == At(old(db.View()), env, 0)
    ensures forall id :: found == Some(id) <==> Finds(old(db.View()), env, code, id)
  {
    AtKeeps(db.View(), env, 0);
    Others(db, env, 0);
    found := None;
    if !env.fails(0) {
      found := db.GetInviteByCode(code, env.now(0));
    }
  }

  /** `main` is the invite that is used, None if the call ends before that; `failed` is an error return. */
  method RedeemInviteCode(db: Store, env: Env, code: string, user: Id, email: string, tokenOk: bool)
    returns (connected: seq<Id>, failed: bool, main: Option<Id>, rows: seq<Id>)
    requires Lawful(env)
    requires Inv(db.View())
    modifies db, db.dm
    ensures main.None? ==> connected == [] && !failed && db.View() == At(old(db.View()), env, 0)
    ensures main.Some? ==>
      var (at, id) := (At(old(db.View()), env, 0), main.value);
      && id in at.invites && at.invites[id].status == Pending && at.invites[id].expiresAt > env.now(0)
      && at.invites[id].code == code
    ensures forall id :: main == Some(id) <==> tokenOk && Finds(old(db.View()), env, code, id)
    ensures main.Some? ==>
      && Finds(old(db.View()), env, code, main.value)
      && Listed(old(db.View()), env, main.value, user, email, rows)
      && db.View() == RedeemedAll(old(db.View()), env, main.value, user, email, rows).db
      && connected == RedeemedAll(old(db.View()), env, main.value, user, email, rows).connected
      && (failed <==> MainFails(old(db.View()), env, main.value, user))
  {
    ghost var was := db.View();
    connected, failed, main, rows := [], false, None, [];
    var found := LookUp(db, env, code);
    if found.None? || !tokenOk {
      return;
    }
    main := found;
    var id := found.value;
    assert Finds(was, env, code, id);
    var k;
    ghost var p := Progress(db.View(), [], {}, {}, 1);
    failed, connected, k, p := TakeInvite(db, env, 1, id, db.invites[id].inviter, user, [], p);
    assert p == Opened(was, env, id, user);
    if failed {
      return;
    }
    Others(db, env, k);
    if env.fails(k) {
      return;
    }
    rows := db.GetPendingInvitesByEmail(email, env.now(k));
    p := p.(db := db.View(), k := k + 1);
    connected, k, p := RedeemOthers(db, env, k + 1, rows, db.invites, id, user, connected, p);
  }

  /** `main` is the invite that is used, None if the call ends before that. */
  method HandleRedeemExisting(db: Store, env: Env, code: string, user: Id, tokenOk: bool)
    returns (answer: Answer, main: Option<Id>)
    requires Lawful(env)
    requires Inv(db.View())
    modifies db, db.dm
    ensures forall id :: main == Some(id) <==> tokenOk && Finds(old(db.View()), env, code, id)
    ensures main.None? ==>
      && db.View() == At(old(db.View()), env, 0)
      && answer == if env.fails(0) || (!env.noRowIsNil && forall id :: !Finds(old(db.View()), env, code, id))
                   then InternalError else NotFound
    ensures main.Some? ==>
      var (at, id) := (At(old(db.View()), env, 0), main.value);
      && id in at.invites && at.invites[id].status == Pending && at.invites[id].expiresAt > env.now(0)
      && at.invites[id].code == code
    ensures main.Some? ==>
      && Finds(old(db.View()), env, code, main.value)
      && db.View() == ExistingDb(old(db.View()), env, main.value, user)
      && answer == ExistingAnswer(old(db.View()), env, main.value, user)
  {
    ghost var was := db.View();
    main := None;
    var found := LookUp(db, env, code);
    if found.None? {
      return (if env.fails(0) || !env.noRowIsNil then InternalError else NotFound), main;
    }
    assert Finds(was, env, code, found.value);
    if !tokenOk {
      return NotFound, main;
    }
    main := found;
    var inviter := db.invites[found.value].inviter;
    ghost var at := db.View();
    assert Inv(at) by { AtKeeps(was, env, 0); }
    var used := Consume(db, env, 1, found.value, user);
    if !used.Row? {
      return (if used.NoRow? then NotFound else InternalError), main;
    }
    ghost var taken := db.View();
    var conv := ConnectInviter(db, env, 2, inviter, user);
    if conv.None? {
      return InternalError, main;
    }
    UseKeeps(at, env, 1, found.value, user);
    OneConv(taken, env, 2, inviter, user, conv.value);
    answer := Success(inviter, conv.value);
  }

  // ---------------------------------------------------------------- what every call keeps

  lemma UseKeeps(db: Db, env: Env, k: nat, id: Id, user: Id)
    requires Lawful(env)
    requires Inv(db)
    ensures Inv(UseDb(db, env, k, id, user)) && Kept(db, UseDb(db, env, k, id, user))
  {
    var at := At(db, env, k);
    AtKeeps(db, env, k);
    StepKeeps(at, Use(id, user, env.now(k)));
    KeptTransitive(db, at, Redeemed(at, id, user, env.now(k)));
  }

  lemma InsertKeeps(db: Db, env: Env, k: nat, inviter: Id, user: Id)
    requires Lawful(env)
    requires Inv(db)
    ensures Inv(InsertDb(db, env, k, inviter, user)) && Kept(db, InsertDb(db, env, k, inviter, user))
    ensures Kept(At(db, env, k), InsertDb(db, env, k, inviter, user))
  {
    var at := At(db, env, k);
    AtKeeps(db, env, k);
    ConnectedKeeps(at, inviter, user, env.freshId(k));
    KeptTransitive(db, at, Connected(at, inviter, user, env.freshId(k)));
  }

  lemma DmKeeps(db: Db, env: Env, k: nat, inviter: Id, user: Id)
    requires Lawful(env)
    requires Inv(db)
    ensures Inv(DmDb(db, env, k, inviter, user)) && Kept(db, DmDb(db, env, k, inviter, user))
    ensures Inv(At(db, env, k)) && Kept(At(db, env, k), DmDb(db, env, k, inviter, user))
  {
    var at := At(db, env, k);
    AtKeeps(db, env, k);
    AtKeeps(at, env, k + 1);
    InsertKeeps(at, env, k + 1, inviter, user);
    KeptTransitive(db, at, DmDb(db, env, k, inviter, user));
  }

  lemma JoinedStays(was: Db, now: Db, a: Id, b: Id)
    requires Kept(was, now) && Joined(was, a, b)
    ensures Joined(now, a, b)
  {
    var conv :| conv in was.t.pairs && was.t.pairs[conv] == Conversations.Ordered(a, b);
    assert conv in now.t.pairs && now.t.pairs[conv] == Conversations.Ordered(a, b);
  }

  /** After a CreateDM that succeeded the two have a DM, and so they have after one that lost the race. */
  lemma MadeIsJoined(db: Db, env: Env, k: nat, inviter: Id, user: Id)
    requires Lawful(env) && Inv(db)
    requires DmMade(db, env, k, inviter, user) || Raced(db, env, k, inviter, user)
    ensures Joined(DmDb(db, env, k, inviter, user), inviter, user)
  {
    var at := At(db, env, k);
    DmKeeps(db, env, k, inviter, user);
    if Joined(at, inviter, user) {
      JoinedStays(at, DmDb(db, env, k, inviter, user), inviter, user);
    } else if Raced(db, env, k, inviter, user) {
      InsertKeeps(at, env, k + 1, inviter, user);
      JoinedStays(At(at, env, k + 1), InsertDb(at, env, k + 1, inviter, user), inviter, user);
    }
  }

  lemma FriendKeeps(db: Db, env: Env, k: nat, a: Id, b: Id)
    requires Lawful(env)
    requires Inv(db) && a != b
    ensures Inv(FriendDb(db, env, k, a, b)) && Kept(db, FriendDb(db, env, k, a, b))
  {
    var at := At(db, env, k);
    AtKeeps(db, env, k);
    BefriendedKeeps(at, a, b);
    KeptTransitive(db, at, Befriended(at, a, b));
  }

  lemma OneConv(db: Db, env: Env, k: nat, inviter: Id, user: Id, conv: Id)
    requires Lawful(env)
    requires Inv(db) && DmMade(db, env, k, inviter, user) && DmFound(db, env, k, inviter, user, conv)
    ensures conv == DmConv(db, env, k, inviter, user)
  {
    DmKeeps(db, env, k, inviter, user);
  }
}
