/**
 Invites and contacts (store/invites.go, store/contacts.go, store/schema.sql) beside the
 conversation tables.  Each SQL statement or transaction is one function on `Db`; `Store`
 performs them, and the lemmas follow a database through any run of them.
 */
module Invites {
  import opened Prelude
  import opened Uuid
  import Conversations
  import Membership

  type Time = int

  datatype Status = Pending | Used | Expired | Revoked

  datatype Invite = Invite(inviter: Id, code: string, email: string, status: Status,
                           usedBy: Option<Id>, usedAt: Option<Time>, expiresAt: Time)

  datatype Db = Db(t: Conversations.Tables, invites: map<Id, Invite>, contacts: set<(Id, Id)>)

  predicate IsOpen(invite: Invite, now: Time) {
    invite.status == Pending && invite.expiresAt > now
  }

  // ---------------------------------------------------------------- statements

  ghost predicate CodeTaken(db: Db, code: string) {
    exists id :: id in db.invites && db.invites[id].code == code
  }

  ghost function Created(db: Db, id: Id, inviter: Id, code: string, email: string, expiresAt: Time): Db {
    if inviter !in db.t.users || id in db.invites || CodeTaken(db, code) then db
    else db.(invites := db.invites[id := Invite(inviter, code, email, Pending, None, None, expiresAt)])
  }

  /** The guard of the UPDATE in UseInvite. */
  predicate Usable(db: Db, id: Id, now: Time) {
    id in db.invites && IsOpen(db.invites[id], now)
  }

  function Redeemed(db: Db, id: Id, user: Id, now: Time): Db {
    if Usable(db, id, now) && user in db.t.users
    then db.(invites := db.invites[id := db.invites[id].(status := Used, usedBy := Some(user), usedAt := Some(now))])
    else db
  }

  predicate Unrepeated(rows: seq<Id>) {
    forall i, j :: 0 <= i < j < |rows| ==> rows[i] != rows[j]
  }

  /** The SELECT for the open invites to an address: each of them once, in any order. */
  ghost predicate IsListing(db: Db, email: string, now: Time, rows: seq<Id>) {
    && Unrepeated(rows)
    && forall id :: id in rows <==> Usable(db, id, now) && db.invites[id].email == email
  }

  predicate Revocable(db: Db, id: Id, inviter: Id) {
    id in db.invites && db.invites[id].inviter == inviter && db.invites[id].status == Pending
  }

  function Withdrawn(db: Db, id: Id, inviter: Id): Db {
    if Revocable(db, id, inviter) then db.(invites := db.invites[id := db.invites[id].(status := Revoked)]) else db
  }

  predicate Overdue(invite: Invite, now: Time) {
    invite.status == Pending && invite.expiresAt < now
  }

  function AgedOut(db: Db, now: Time): Db {
    db.(invites := map id | id in db.invites ::
          if Overdue(db.invites[id], now) then db.invites[id].(status := Expired) else db.invites[id])
  }

  /** Both directions in one transaction, existing rows left alone. */
  function Befriended(db: Db, a: Id, b: Id): Db {
    if a in db.t.users && b in db.t.users then db.(contacts := db.contacts + {(a, b), (b, a)}) else db
  }

  function Unfriended(db: Db, a: Id, b: Id): Db {
    db.(contacts := db.contacts - {(a, b), (b, a)})
  }

  ghost predicate Joined(db: Db, a: Id, b: Id) {
    Conversations.HasDm(db.t, Conversations.Ordered(a, b))
  }

  /** The transaction of CreateDM, and also CreateDM as a whole when nothing comes between. */
  ghost function Connected(db: Db, a: Id, b: Id, freshId: Id): Db {
    if Joined(db, a, b) then db
    else match Conversations.InsertDm(db.t, freshId, Conversations.Ordered(a, b))
         case Ok(t) => db.(t := t)
         case Err(_) => db
  }

  // ---------------------------------------------------------------- runs

  /** `AddManually` is guarded by handleAddContact, `AddInvited` by the CreateDM before it. */
  datatype Step =
    | Register(user: Id)
    | Create(id: Id, inviter: Id, code: string, email: string, expiresAt: Time)
    | Use(id: Id, user: Id, now: Time)
    | Revoke(id: Id, inviter: Id)
    | ExpireOld(now: Time)
    | Connect(a: Id, b: Id, freshId: Id)
    | AddManually(a: Id, b: Id)
    | AddInvited(a: Id, b: Id)
    | RemoveContact(a: Id, b: Id)

  ghost function Next(db: Db, step: Step): Db {
    match step
    case Register(user) => db.(t := db.t.(users := db.t.users + {user}))
    case Create(id, inviter, code, email, expiresAt) => Created(db, id, inviter, code, email, expiresAt)
    case Use(id, user, now) => Redeemed(db, id, user, now)
    case Revoke(id, inviter) => Withdrawn(db, id, inviter)
    case ExpireOld(now) => AgedOut(db, now)
    case Connect(a, b, freshId) => Connected(db, a, b, freshId)
    case AddManually(a, b) => if a == b then db else Befriended(db, a, b)
    case AddInvited(a, b) => if Joined(db, a, b) then Befriended(db, a, b) else db
    case RemoveContact(a, b) => Unfriended(db, a, b)
  }

  ghost function RunFrom(db: Db, steps: seq<Step>): Db {
    if steps == [] then db else Next(RunFrom(db, steps[..|steps| - 1]), steps[|steps| - 1])
  }

  const EMPTY_DB := Db(Conversations.Tables({}, map[], map[], map[]), map[], {})

  // ---------------------------------------------------------------- invariants

  ghost predicate DmsOk(t: Conversations.Tables) {
    && t.pairs.Keys <= t.convs.Keys
    && Membership.OnePerPair(t)
    && forall conv :: conv in t.pairs ==> Less(t.pairs[conv].0, t.pairs[conv].1)
  }

  predicate InviteOk(t: Conversations.Tables, invite: Invite) {
    && invite.inviter in t.users
    && (invite.status == Used <==> invite.usedBy.Some?)
  }

  ghost predicate InvitesOk(db: Db) {
    && (forall id :: id in db.invites ==> InviteOk(db.t, db.invites[id]))
    && (forall id, other :: id in db.invites && other in db.invites && db.invites[id].code == db.invites[other].code ==>
          id == other)
  }

  ghost predicate ContactsOk(contacts: set<(Id, Id)>) {
    && (forall a, b :: (a, b) in contacts ==> (b, a) in contacts)
    && (forall a, b :: (a, b) in contacts ==> a != b)
  }

  ghost predicate Inv(db: Db) {
    DmsOk(db.t) && InvitesOk(db) && ContactsOk(db.contacts)
  }

  /** An invite that has left `pending` stays as it is. */
  predicate InviteKept(was: Invite, now: Invite) {
    && (was.status != Pending ==> now == was)
    && now.inviter == was.inviter && now.code == was.code && now.email == was.email && now.expiresAt == was.expiresAt
  }

  ghost predicate TablesKept(was: Conversations.Tables, now: Conversations.Tables) {
    && was.users <= now.users
    && forall conv :: conv in was.pairs ==> conv in now.pairs && now.pairs[conv] == was.pairs[conv]
  }

  ghost predicate Kept(was: Db, now: Db) {
    && TablesKept(was.t, now.t)
    && forall id :: id in was.invites ==> id in now.invites && InviteKept(was.invites[id], now.invites[id])
  }

  lemma KeptTransitive(a: Db, b: Db, c: Db)
    requires Kept(a, b) && Kept(b, c)
    ensures Kept(a, c)
  {
  }

  /** Users with a DM are two: the order that the CHECK demands is strict. */
  lemma JoinedAreTwo(db: Db, a: Id, b: Id)
    requires DmsOk(db.t) && Joined(db, a, b)
    ensures a != b
  {
    Conversations.OrderedMeetsCheck(a, b);
  }

  lemma ConnectedDms(t: Conversations.Tables, pair: (Id, Id), freshId: Id)
    requires DmsOk(t) && Conversations.InsertDm(t, freshId, pair).Ok?
    ensures DmsOk(Conversations.InsertDm(t, freshId, pair).value)
    ensures TablesKept(t, Conversations.InsertDm(t, freshId, pair).value)
  {
    Membership.InsertDmUnique(t, freshId, pair);
  }

  lemma NewTables(db: Db, t: Conversations.Tables)
    requires Inv(db) && DmsOk(t) && TablesKept(db.t, t)
    ensures Inv(db.(t := t)) && Kept(db, db.(t := t))
  {
    forall id | id in db.invites ensures InviteOk(t, db.invites[id]) {
      assert InviteOk(db.t, db.invites[id]);
    }
  }

  lemma ConnectedKeeps(db: Db, a: Id, b: Id, freshId: Id)
    requires Inv(db)
    ensures Inv(Connected(db, a, b, freshId)) && Kept(db, Connected(db, a, b, freshId))
  {
    var pair := Conversations.Ordered(a, b);
    if !Joined(db, a, b) && Conversations.InsertDm(db.t, freshId, pair).Ok? {
      ConnectedDms(db.t, pair, freshId);
      NewTables(db, Conversations.InsertDm(db.t, freshId, pair).value);
    }
  }

  lemma BefriendedKeeps(db: Db, a: Id, b: Id)
    requires Inv(db) && a != b
    ensures Inv(Befriended(db, a, b)) && Kept(db, Befriended(db, a, b))
  {
  }

  lemma OneInviteKeeps(db: Db, id: Id, invite: Invite)
    requires Inv(db) && InviteOk(db.t, invite)
    requires if id in db.invites then InviteKept(db.invites[id], invite) else !CodeTaken(db, invite.code)
    ensures Inv(db.(invites := db.invites[id := invite])) && Kept(db, db.(invites := db.invites[id := invite]))
  {
  }

  lemma AgedOutKeeps(db: Db, now: Time)
    requires Inv(db)
    ensures Inv(AgedOut(db, now)) && Kept(db, AgedOut(db, now))
  {
    var after := AgedOut(db, now);
    forall id | id in after.invites ensures InviteOk(after.t, after.invites[id]) {
      assert InviteOk(db.t, db.invites[id]);
    }
  }

  lemma StepKeeps(db: Db, step: Step)
    requires Inv(db)
    ensures Inv(Next(db, step)) && Kept(db, Next(db, step))
  {
    match step
    case Register(user) => NewTables(db, db.t.(users := db.t.users + {user}));
    case Create(id, inviter, code, email, expiresAt) =>
      if Next(db, step) != db {
        OneInviteKeeps(db, id, Invite(inviter, code, email, Pending, None, None, expiresAt));
      }
    case Use(id, user, now) =>
      if Usable(db, id, now) {
        assert InviteOk(db.t, db.invites[id]);
        OneInviteKeeps(db, id, db.invites[id].(status := Used, usedBy := Some(user), usedAt := Some(now)));
      }
    case Revoke(id, inviter) =>
      if Revocable(db, id, inviter) {
        assert InviteOk(db.t, db.invites[id]);
        OneInviteKeeps(db, id, db.invites[id].(status := Revoked));
      }
    case ExpireOld(now) => AgedOutKeeps(db, now);
    case Connect(a, b, freshId) => ConnectedKeeps(db, a, b, freshId);
    case AddManually(a, b) => if a != b { BefriendedKeeps(db, a, b); }
    case AddInvited(a, b) =>
      if Joined(db, a, b) {
        JoinedAreTwo(db, a, b);
        BefriendedKeeps(db, a, b);
      }
    case RemoveContact(a, b) =>
  }

  /** An invite leaves `pending` at most once; the record it then has, used_by included, is final. */
  lemma {:induction false} RunKeeps(db: Db, steps: seq<Step>)
    requires Inv(db)
    ensures Inv(RunFrom(db, steps)) && Kept(db, RunFrom(db, steps))
  {
    if steps != [] {
      RunKeeps(db, steps[..|steps| - 1]);
      StepKeeps(RunFrom(db, steps[..|steps| - 1]), steps[|steps| - 1]);
      KeptTransitive(db, RunFrom(db, steps[..|steps| - 1]), RunFrom(db, steps));
    }
  }

  lemma EmptyOk()
    ensures Inv(EMPTY_DB)
  {
  }

  /** Over every run contacts are mutual, and nobody is a contact of themselves. */
  lemma ContactsAreMutual(steps: seq<Step>, a: Id, b: Id)
    ensures var contacts := RunFrom(EMPTY_DB, steps).contacts; (a, b) in contacts ==> (b, a) in contacts && a != b
  {
    EmptyOk();
    RunKeeps(EMPTY_DB, steps);
  }

  // ---------------------------------------------------------------- racing redeemers

  /** The users whose UseInvite on the invite took effect, in order. */
  ghost function Redeemers(steps: seq<Step>, id: Id): seq<Id> {
    if steps == [] then []
    else
      var before, step := RunFrom(EMPTY_DB, steps[..|steps| - 1]), steps[|steps| - 1];
      Redeemers(steps[..|steps| - 1], id)
        + if step.Use? && step.id == id && Usable(before, id, step.now) && step.user in before.t.users then [step.user] else []
  }

  function WhoUsed(db: Db, id: Id): Option<Id> {
    if id in db.invites then db.invites[id].usedBy else None
  }

  lemma RedeemerStep(db: Db, step: Step, id: Id)
    requires InvitesOk(db)
    ensures WhoUsed(Next(db, step), id)
         == if step.Use? && step.id == id && Usable(db, id, step.now) && step.user in db.t.users
            then Some(step.user) else WhoUsed(db, id)
    ensures step.Use? && step.id == id && Usable(db, id, step.now) ==> WhoUsed(db, id) == None
  {
  }

  /** However many users race for an invite, at most one gets it, and used_by names that one. */
  lemma {:induction false} OneRedeemer(steps: seq<Step>, id: Id)
    ensures var db := RunFrom(EMPTY_DB, steps);
            && Redeemers(steps, id) == (match WhoUsed(db, id) case None => [] case Some(user) => [user])
            && (id in db.invites ==> (db.invites[id].status == Used <==> WhoUsed(db, id).Some?))
  {
    EmptyOk();
    RunKeeps(EMPTY_DB, steps);
    if steps != [] {
      var n := |steps| - 1;
      OneRedeemer(steps[..n], id);
      RunKeeps(EMPTY_DB, steps[..n]);
      RedeemerStep(RunFrom(EMPTY_DB, steps[..n]), steps[n], id);
    }
  }

  // ---------------------------------------------------------------- the store

  class Store {
    const dm: Conversations.Store
    var invites: map<Id, Invite>
    var contacts: set<(Id, Id)>

    function View(): Db
      reads this, dm
    {
      Db(dm.View(), invites, contacts)
    }

    constructor (dm: Conversations.Store)
      ensures this.dm == dm && View() == Db(dm.View(), map[], {})
    {
      this.dm := dm;
      invites, contacts := map[], {};
    }

    method CreateInviteCode(id: Id, inviter: Id, code: string, email: string, expiresAt: Time) returns (ok: bool)
      modifies this`invites
      ensures View() == Created(old(View()), id, inviter, code, email, expiresAt)
      ensures ok <==> inviter in dm.users && id !in old(invites) && !CodeTaken(old(View()), code)
    {
      if inviter !in dm.users || id in invites {
        return false;
      }
      if other :| other in invites && invites[other].code == code {
        return false;
      }
      invites := invites[id := Invite(inviter, code, email, Pending, None, None, expiresAt)];
      return true;
    }

    /** Codes are unique, so the SELECT has at most one row. */
    method GetInviteByCode(code: string, now: Time) returns (found: Option<Id>)
      requires InvitesOk(View())
      ensures forall id :: found == Some(id) <==>
                id in invites && invites[id].status == Pending && invites[id].expiresAt > now && invites[id].code == code
    {
      found := None;
      if id :| id in invites && invites[id].code == code && IsOpen(invites[id], now) {
        found := Some(id);
      }
    }

    /** `used` says that the UPDATE hit a row; `ok` that the database accepted it. */
    method UseInvite(id: Id, user: Id, now: Time) returns (ok: bool, used: bool)
      modifies this`invites
      ensures View() == Redeemed(old(View()), id, user, now)
      ensures used <==> && id in old(invites) && old(invites)[id].status == Pending && old(invites)[id].expiresAt > now
                        && user in dm.users
      ensures used ==> invites == old(invites)[id := old(invites)[id].(status := Used, usedBy := Some(user), usedAt := Some(now))]
      ensures !used ==> invites == old(invites)
      ensures ok <==> used || !Usable(old(View()), id, now)
    {
      ok, used := true, false;
      if id in invites && IsOpen(invites[id], now) {
        if user !in dm.users {
          return false, false;
        }
        invites := invites[id := invites[id].(status := Used, usedBy := Some(user), usedAt := Some(now))];
        used := true;
      }
    }

    /** False is ErrInviteNotFound. */
    method RevokeInvite(id: Id, inviter: Id) returns (ok: bool)
      modifies this`invites
      ensures View() == Withdrawn(old(View()), id, inviter)
      ensures ok <==> id in old(invites) && old(invites)[id].inviter == inviter && old(invites)[id].status == Pending
      ensures invites == if ok then old(invites)[id := old(invites)[id].(status := Revoked)] else old(invites)
    {
      ok := id in invites && invites[id].inviter == inviter && invites[id].status == Pending;
      if ok {
        invites := invites[id := invites[id].(status := Revoked)];
      }
    }

    method ExpireOldInvites(now: Time) returns (count: nat)
      modifies this`invites
      ensures View() == AgedOut(old(View()), now)
      ensures count == |set id | id in old(invites) && Overdue(old(invites)[id], now)|
    {
      count := |set id | id in invites && Overdue(invites[id], now)|;
      invites := map id | id in invites :: if Overdue(invites[id], now) then invites[id].(status := Expired) else invites[id];
    }

    method AddContact(a: Id, b: Id) returns (ok: bool)
      modifies this`contacts
      ensures View() == Befriended(old(View()), a, b)
      ensures ok <==> a in dm.users && b in dm.users
    {
      ok := a in dm.users && b in dm.users;
      if ok {
        contacts := contacts + {(a, b)};
        contacts := contacts + {(b, a)};
      }
    }

    method RemoveContact(a: Id, b: Id)
      modifies this`contacts
      ensures View() == Unfriended(old(View()), a, b)
    {
      contacts := contacts - {(a, b), (b, a)};
    }

    /** The rows in some order, each once. */
    method GetPendingInvitesByEmail(email: string, now: Time) returns (rows: seq<Id>)
      ensures IsListing(View(), email, now, rows)
      ensures forall id :: id in rows <==>
                id in invites && invites[id].status == Pending && invites[id].expiresAt > now && invites[id].email == email
    {
      var left := set id | id in invites && IsOpen(invites[id], now) && invites[id].email == email;
      ghost var all := left;
      rows := [];
      while left != {}
        invariant left <= all
        invariant forall id :: id in rows <==> id in all - left
        invariant Unrepeated(rows)
        decreases |left|
      {
        var id :| id in left;
        assert id !in rows;
        rows := rows + [id];
        left := left - {id};
      }
    }
  }
}
