/**
 The conversation tables of store/conversations.go and store/schema.sql.  Each SQL statement
 or transaction is one function on `Tables`; `Store` performs them on its fields.
 */
module Conversations {
  import opened Prelude
  import opened Uuid

  datatype Kind = Dm | Room
  datatype Role = Owner | Admin | Member

  datatype Conv = Conv(kind: Kind, owner: Option<Id>)

  /** `active` is deleted_at IS NULL. */
  datatype Row = Row(role: Role, active: bool, readSeq: int, recvSeq: int, clearSeq: int)

  datatype Tables = Tables(
    users: set<Id>,
    convs: map<Id, Conv>,
    pairs: map<Id, (Id, Id)>,         // dm_participants, by conversation_id
    members: map<(Id, Id), Row>)      // by (conversation_id, user_id)

  datatype Error = NotFound | DuplicateKey | ForeignKey | CheckFailed
  datatype Result<+T> = Ok(value: T) | Err(error: Error)

  const NEW_ROW := Row(Member, true, 0, 0, 0)

  // ---------------------------------------------------------------- direct messages

  /** The swap that CreateDM makes on the ids' texts. */
  function Ordered(a: Id, b: Id): (Id, Id) {
    if Less(Text(b), Text(a)) then (b, a) else (a, b)
  }

  /** Whatever the order of the arguments, distinct users meet the CHECK of the table. */
  lemma OrderedMeetsCheck(a: Id, b: Id)
    ensures Ordered(a, b) == Ordered(b, a)
    ensures Less(Ordered(a, b).0, Ordered(a, b).1) <==> a != b
    ensures {Ordered(a, b).0, Ordered(a, b).1} == {a, b}
  {
    TextOrder(a, b);
    TextOrder(b, a);
    LessTotal(a, b);
  }

  ghost predicate HasDm(t: Tables, pair: (Id, Id)) {
    exists conv :: conv in t.pairs && t.pairs[conv] == pair
  }

  ghost function DmOf(t: Tables, pair: (Id, Id)): Id
    requires HasDm(t, pair)
  {
    var conv :| conv in t.pairs && t.pairs[conv] == pair;
    conv
  }

  /** The insert transaction of CreateDM: three INSERTs that commit together or not at all. */
  ghost function InsertDm(t: Tables, id: Id, pair: (Id, Id)): Result<Tables> {
    if id in t.convs then Err(DuplicateKey)
    else if pair.0 !in t.users || pair.1 !in t.users then Err(ForeignKey)
    else if !Less(pair.0, pair.1) then Err(CheckFailed)
    else if HasDm(t, pair) then Err(DuplicateKey)
    else Ok(t.(convs := t.convs[id := Conv(Dm, None)],
               pairs := t.pairs[id := pair],
               members := t.members[(id, pair.0) := NEW_ROW][(id, pair.1) := NEW_ROW]))
  }

  lemma InsertDmIs(t: Tables, id: Id, pair: (Id, Id))
    requires id !in t.convs && pair.0 in t.users && pair.1 in t.users && Less(pair.0, pair.1) && !HasDm(t, pair)
    ensures InsertDm(t, id, pair)
         == Ok(Tables(t.users, t.convs[id := Conv(Dm, None)], t.pairs[id := pair],
                      t.members[(id, pair.0) := NEW_ROW][(id, pair.1) := NEW_ROW]))
  {
  }

  // ---------------------------------------------------------------- rooms and members

  function InsertRoom(t: Tables, id: Id, owner: Id): Result<Tables> {
    if id in t.convs then Err(DuplicateKey)
    else if owner !in t.users then Err(ForeignKey)
    else Ok(t.(convs := t.convs[id := Conv(Room, Some(owner))],
               members := t.members[(id, owner) := NEW_ROW.(role := Owner)]))
  }

  function MemberRole(t: Tables, conv: Id, user: Id): Option<Role> {
    if (conv, user) in t.members && t.members[(conv, user)].active then Some(t.members[(conv, user)].role) else None
  }

  /** INSERT .. ON CONFLICT DO UPDATE: an existing row is revived and its role overwritten. */
  function AddMember(t: Tables, conv: Id, user: Id, role: Role): Result<Tables> {
    if conv !in t.convs || user !in t.users then Err(ForeignKey)
    else
      var row := if (conv, user) in t.members then t.members[(conv, user)] else NEW_ROW;
      Ok(t.(members := t.members[(conv, user) := row.(active := true, role := role)]))
  }

  /**
   Adding an existing member is a no-op only for an active row that has the role already.  (The
   column updated_at, which every call overwrites, is no part of a row here.)
   */
  lemma AddMemberChanges(t: Tables, conv: Id, user: Id, role: Role)
    requires AddMember(t, conv, user, role).Ok?
    ensures AddMember(t, conv, user, role).value == t <==> MemberRole(t, conv, user) == Some(role)
    ensures MemberRole(AddMember(t, conv, user, role).value, conv, user) == Some(role)
  {
    var after := AddMember(t, conv, user, role).value;
    if MemberRole(t, conv, user) == Some(role) {
      assert after.members == t.members;
    } else {
      assert MemberRole(after, conv, user) == Some(role);
    }
  }

  function DropMember(t: Tables, conv: Id, user: Id): Tables {
    if MemberRole(t, conv, user) == None then t
    else t.(members := t.members[(conv, user) := t.members[(conv, user)].(active := false)])
  }

  function SetRead(t: Tables, conv: Id, user: Id, seqNo: int): Tables {
    if (conv, user) !in t.members then t
    else
      var row := t.members[(conv, user)];
      t.(members := t.members[(conv, user) := row.(readSeq := seqNo, recvSeq := Max(row.recvSeq, seqNo))])
  }

  function SetRecv(t: Tables, conv: Id, user: Id, seqNo: int): Tables {
    if (conv, user) !in t.members then t
    else
      var row := t.members[(conv, user)];
      t.(members := t.members[(conv, user) := row.(recvSeq := Max(row.recvSeq, seqNo))])
  }

  function SetClear(t: Tables, conv: Id, user: Id, seqNo: int): Tables {
    if (conv, user) !in t.members then t
    else t.(members := t.members[(conv, user) := t.members[(conv, user)].(clearSeq := seqNo)])
  }

  // ---------------------------------------------------------------- the store

  class Store {
    var users: set<Id>
    var convs: map<Id, Conv>
    var pairs: map<Id, (Id, Id)>
    var members: map<(Id, Id), Row>

    function View(): Tables
      reads this
    {
      Tables(users, convs, pairs, members)
    }

    /** The SELECT of CreateDM. */
    method FindDM(a: Id, b: Id) returns (conv: Option<Id>)
      ensures conv.Some? <==> HasDm(View(), Ordered(a, b))
      ensures conv.Some? ==> conv.value in pairs && pairs[conv.value] == Ordered(a, b)
    {
      var pair := Ordered(a, b);
      if id :| id in pairs && pairs[id] == pair {
        return Some(id);
      }
      return None;
    }

    /** The transaction of CreateDM. */
    method InsertDM(a: Id, b: Id, freshId: Id) returns (r: Result<Id>)
      modifies this`convs, this`pairs, this`members
      ensures match InsertDm(old(View()), freshId, Ordered(a, b))
              case Ok(t) => View() == t && r == Ok(freshId)
              case Err(e) => View() == old(View()) && r == Err(e)
    {
      var (user1, user2) := Ordered(a, b);
      if freshId in convs {
        return Err(DuplicateKey);
      }
      if user1 !in users || user2 !in users {
        return Err(ForeignKey);
      }
      if !Less(user1, user2) {
        return Err(CheckFailed);
      }
      var existing := FindDM(a, b);
      if existing.Some? {
        return Err(DuplicateKey);
      }
      InsertDmIs(View(), freshId, (user1, user2));
      convs := convs[freshId := Conv(Dm, None)];
      pairs := pairs[freshId := (user1, user2)];
      members := members[(freshId, user1) := NEW_ROW][(freshId, user2) := NEW_ROW];
      return Ok(freshId);
    }

    /** Both of them, undisturbed: the conversation and whether this call created it. */
    method CreateDM(a: Id, b: Id, freshId: Id) returns (r: Result<(Id, bool)>)
      modifies this`convs, this`pairs, this`members
      ensures
        var pair := Ordered(a, b);
        if HasDm(old(View()), pair)
        then View() == old(View()) && r.Ok? && !r.value.1 && r.value.0 in pairs && pairs[r.value.0] == pair
        else match InsertDm(old(View()), freshId, pair)
             case Ok(t) => View() == t && r == Ok((freshId, true))
             case Err(e) => View() == old(View()) && r == Err(e)
    {
      var existing := FindDM(a, b);
      if existing.Some? {
        return Ok((existing.value, false));
      }
      var inserted := InsertDM(a, b, freshId);
      match inserted
      case Ok(id) => return Ok((id, true));
      case Err(e) => return Err(e);
    }

    method CreateRoom(owner: Id, freshId: Id) returns (r: Result<Id>)
      modifies this`convs, this`members
      ensures match InsertRoom(old(View()), freshId, owner)
              case Ok(t) => View() == t && r == Ok(freshId)
              case Err(e) => View() == old(View()) && r == Err(e)
    {
      if freshId in convs {
        return Err(DuplicateKey);
      }
      if owner !in users {
        return Err(ForeignKey);
      }
      convs := convs[freshId := Conv(Room, Some(owner))];
      members := members[(freshId, owner) := NEW_ROW.(role := Owner)];
      return Ok(freshId);
    }

    method GetMemberRole(conv: Id, user: Id) returns (role: Option<Role>)
      ensures role == MemberRole(View(), conv, user)
    {
      if (conv, user) in members && members[(conv, user)].active {
        return Some(members[(conv, user)].role);
      }
      return None;
    }

    method AddRoomMember(conv: Id, user: Id, role: Role) returns (ok: bool)
      modifies this`members
      ensures match AddMember(old(View()), conv, user, role)
              case Ok(t) => ok && View() == t
              case Err(_) => !ok && View() == old(View())
    {
      if conv !in convs || user !in users {
        return false;
      }
      if (conv, user) in members {
        members := members[(conv, user) := members[(conv, user)].(active := true, role := role)];
      } else {
        members := members[(conv, user) := NEW_ROW.(role := role)];
      }
      return true;
    }

    method RemoveMember(conv: Id, user: Id)
      modifies this`members
      ensures View() == DropMember(old(View()), conv, user)
    {
      if (conv, user) in members && members[(conv, user)].active {
        members := members[(conv, user) := members[(conv, user)].(active := false)];
      }
    }

    method UpdateReadSeq(conv: Id, user: Id, seqNo: int)
      modifies this`members
      ensures View() == SetRead(old(View()), conv, user, seqNo)
    {
      if (conv, user) in members {
        var row := members[(conv, user)];
        members := members[(conv, user) := row.(readSeq := seqNo, recvSeq := Max(row.recvSeq, seqNo))];
      }
    }

    method UpdateRecvSeq(conv: Id, user: Id, seqNo: int)
      modifies this`members
      ensures View() == SetRecv(old(View()), conv, user, seqNo)
    {
      if (conv, user) in members {
        var row := members[(conv, user)];
        members := members[(conv, user) := row.(recvSeq := Max(row.recvSeq, seqNo))];
      }
    }

    method UpdateClearSeq(conv: Id, user: Id, seqNo: int)
      modifies this`members
      ensures View() == SetClear(old(View()), conv, user, seqNo)
    {
      if (conv, user) in members {
        members := members[(conv, user) := members[(conv, user)].(clearSeq := seqNo)];
      }
    }
  }
}
