/**
 Requests running side by side over the conversation tables.  A request that first reads and
 later writes is two steps, so other requests can take place between its check and its write.
 */
module Membership {
  import opened Prelude
  import opened Uuid
  import opened Conversations

  /** What a request has established by its reads and carries to its next statement. */
  datatype Request =
    | DmMissing(a: Id, b: Id)
    | InviteAsked(inviter: Id, conv: Id, target: Id)
    | InviteAllowed(inviter: Id, conv: Id, target: Id)
    | LeaveAllowed(conv: Id, target: Id)
    | KickAsked(asRole: Role, conv: Id, target: Id)
    | KickAllowed(conv: Id, target: Id)

  datatype DmReturn = DmReturn(a: Id, b: Id, conv: Id)
  datatype Invite = Invite(inviter: Id, conv: Id, target: Id)

  /** `returned` and `invited` record what CreateDM answered and which invites were written. */
  datatype System = System(t: Tables, requests: map<nat, Request>, returned: set<DmReturn>, invited: set<Invite>)

  datatype Step =
    | Register(user: Id)
    | NewRoom(user: Id, id: Id)
    | DmLookup(r: nat, a: Id, b: Id)
    | DmInsert(r: nat, id: Id)
    | InviteCheck(r: nat, inviter: Id, conv: Id, target: Id)
    | InviteCheckTarget(r: nat)
    | InviteWrite(r: nat)
    | LeaveCheck(r: nat, user: Id, conv: Id)
    | KickCheck(r: nat, inviter: Id, conv: Id, target: Id)
    | KickCheckTarget(r: nat)
    | RemoveWrite(r: nat)
    | Read(user: Id, conv: Id, seqNo: int)
    | Recv(user: Id, conv: Id, seqNo: int)
    | Clear(user: Id, conv: Id, seqNo: int)

  ghost predicate Idle(s: System, r: nat) { r !in s.requests }

  ghost function Done(s: System, r: nat): System { s.(requests := s.requests - {r}) }

  ghost function Goes(s: System, r: nat, to: Request): System { s.(requests := s.requests[r := to]) }

  /** The insert of a CreateDM that has found nothing. */
  ghost function DmInserted(s: System, r: nat, id: Id): System {
    if Idle(s, r) || !s.requests[r].DmMissing? then s
    else
      var DmMissing(a, b) := s.requests[r];
      match InsertDm(s.t, id, Ordered(a, b))
      case Ok(t) => Done(s, r).(t := t, returned := s.returned + {DmReturn(a, b, id)})
      case Err(_) => Done(s, r)
  }

  /** A step whose request is at another point of its handler does nothing. */
  ghost function Next(s: System, step: Step): System {
    match step
    case Register(user) => s.(t := s.t.(users := s.t.users + {user}))
    case NewRoom(user, id) => (match InsertRoom(s.t, id, user) case Ok(t) => s.(t := t) case Err(_) => s)
    case DmLookup(r, a, b) =>
      if !Idle(s, r) then s
      else if HasDm(s.t, Ordered(a, b)) then s.(returned := s.returned + {DmReturn(a, b, DmOf(s.t, Ordered(a, b)))})
      else Goes(s, r, DmMissing(a, b))
    case DmInsert(r, id) => DmInserted(s, r, id)
    case InviteCheck(r, inviter, conv, target) =>
      var role := MemberRole(s.t, conv, inviter);
      if Idle(s, r) && (role == Some(Owner) || role == Some(Admin)) then Goes(s, r, InviteAsked(inviter, conv, target)) else s
    case InviteCheckTarget(r) =>
      if Idle(s, r) || !s.requests[r].InviteAsked? then s
      else
        var InviteAsked(inviter, conv, target) := s.requests[r];
        if target in s.t.users then Goes(s, r, InviteAllowed(inviter, conv, target)) else Done(s, r)
    case InviteWrite(r) =>
      if Idle(s, r) || !s.requests[r].InviteAllowed? then s
      else
        var InviteAllowed(inviter, conv, target) := s.requests[r];
        (match AddMember(s.t, conv, target, Member)
         case Ok(t) => Done(s, r).(t := t, invited := s.invited + {Invite(inviter, conv, target)})
         case Err(_) => Done(s, r))
    case LeaveCheck(r, user, conv) =>
      var role := MemberRole(s.t, conv, user);
      if Idle(s, r) && role != None && role != Some(Owner) then Goes(s, r, LeaveAllowed(conv, user)) else s
    case KickCheck(r, inviter, conv, target) =>
      var role := MemberRole(s.t, conv, inviter);
      if Idle(s, r) && (role == Some(Owner) || role == Some(Admin)) then Goes(s, r, KickAsked(role.value, conv, target)) else s
    case KickCheckTarget(r) =>
      if Idle(s, r) || !s.requests[r].KickAsked? then s
      else
        var KickAsked(asRole, conv, target) := s.requests[r];
        var role := MemberRole(s.t, conv, target);
        if role == None || role == Some(Owner) || (asRole == Admin && role == Some(Admin)) then Done(s, r)
        else Goes(s, r, KickAllowed(conv, target))
    case RemoveWrite(r) =>
      if Idle(s, r) || !(s.requests[r].LeaveAllowed? || s.requests[r].KickAllowed?) then s
      else Done(s, r).(t := DropMember(s.t, s.requests[r].conv, s.requests[r].target))
    case Read(user, conv, seqNo) => s.(t := SetRead(s.t, conv, user, seqNo))
    case Recv(user, conv, seqNo) => s.(t := SetRecv(s.t, conv, user, seqNo))
    case Clear(user, conv, seqNo) => s.(t := SetClear(s.t, conv, user, seqNo))
  }

  const EMPTY_SYSTEM := System(Tables({}, map[], map[], map[]), map[], {}, {})

  ghost function Run(steps: seq<Step>): System {
    if steps == [] then EMPTY_SYSTEM else Next(Run(steps[..|steps| - 1]), steps[|steps| - 1])
  }

  // ---------------------------------------------------------------- what every step keeps

  ghost predicate ConvOk(t: Tables, conv: Id)
    requires conv in t.convs
  {
    match t.convs[conv]
    case Conv(Dm, _) =>
      && conv in t.pairs && Less(t.pairs[conv].0, t.pairs[conv].1)
      && (conv, t.pairs[conv].0) in t.members && (conv, t.pairs[conv].1) in t.members
    case Conv(Room, owner) => owner.Some? && conv !in t.pairs
  }

  /** A member row of a direct message, or a room row as its owner or an invite made it. */
  ghost predicate RowOk(t: Tables, invited: set<Invite>, key: (Id, Id))
    requires key in t.members
  {
    var (conv, user) := key;
    var row := t.members[key];
    && conv in t.convs
    && row.readSeq <= row.recvSeq
    && match t.convs[conv]
       case Conv(Dm, _) => row.role == Member && conv in t.pairs && (user == t.pairs[conv].0 || user == t.pairs[conv].1)
       case Conv(Room, owner) =>
         match row.role
         case Owner => owner == Some(user) && row.active
         case Admin => false
         case Member => owner.Some? && Invite(owner.value, conv, user) in invited
  }

  /** The row a pending removal will hit is not an owner's. */
  ghost predicate Removable(t: Tables, conv: Id, user: Id) {
    (conv, user) in t.members && t.members[(conv, user)].role != Owner
  }

  ghost predicate RequestOk(t: Tables, request: Request) {
    match request
    case InviteAsked(inviter, conv, _) => conv in t.convs && t.convs[conv] == Conv(Room, Some(inviter))
    case InviteAllowed(inviter, conv, _) => conv in t.convs && t.convs[conv] == Conv(Room, Some(inviter))
    case LeaveAllowed(conv, user) => Removable(t, conv, user)
    case KickAllowed(conv, user) => Removable(t, conv, user)
    case DmMissing(_, _) => true
    case KickAsked(_, _, _) => true
  }

  ghost predicate ReturnOk(t: Tables, r: DmReturn) {
    r.conv in t.pairs && t.pairs[r.conv] == Ordered(r.a, r.b)
  }

  ghost predicate OnePerPair(t: Tables) {
    forall c, c' :: c in t.pairs && c' in t.pairs && t.pairs[c] == t.pairs[c'] ==> c == c'
  }

  ghost predicate TablesOk(t: Tables, invited: set<Invite>) {
    && t.pairs.Keys <= t.convs.Keys
    && OnePerPair(t)
    && (forall conv :: conv in t.convs ==> ConvOk(t, conv))
    && (forall key :: key in t.members ==> RowOk(t, invited, key))
  }

  ghost predicate Inv(s: System) {
    && TablesOk(s.t, s.invited)
    && (forall r :: r in s.requests ==> RequestOk(s.t, s.requests[r]))
    && (forall r :: r in s.returned ==> ReturnOk(s.t, r))
  }

  /** What the pending requests and the past answers rely on survives the step. */
  ghost predicate Extends(t: Tables, t': Tables) {
    && (forall conv :: conv in t.convs ==> conv in t'.convs && t'.convs[conv] == t.convs[conv])
    && (forall conv :: conv in t.pairs ==> conv in t'.pairs && t'.pairs[conv] == t.pairs[conv])
    && (forall key :: key in t.members ==> key in t'.members && RowKept(t.members[key], t'.members[key]))
  }

  /** No statement makes an owner of an existing row or takes back a received receipt. */
  ghost predicate RowKept(row: Row, row': Row) {
    && (row'.role == Owner ==> row.role == Owner)
    && row.recvSeq <= row'.recvSeq
  }

  lemma RowsHaveConvs(t: Tables, invited: set<Invite>, id: Id)
    requires TablesOk(t, invited) && id !in t.convs
    ensures forall key :: key in t.members ==> key.0 != id
  {
    forall key | key in t.members ensures key.0 != id { assert RowOk(t, invited, key); }
  }

  lemma InsertDmUnique(t: Tables, id: Id, pair: (Id, Id))
    requires OnePerPair(t) && InsertDm(t, id, pair).Ok?
    ensures OnePerPair(InsertDm(t, id, pair).value)
  {
    assert forall c :: c in t.pairs ==> t.pairs[c] != pair;
  }

  lemma InsertDmRow(t: Tables, invited: set<Invite>, id: Id, pair: (Id, Id), key: (Id, Id))
    requires InsertDm(t, id, pair).Ok? && key in InsertDm(t, id, pair).value.members
    requires key in t.members ==> RowOk(t, invited, key)
    ensures RowOk(InsertDm(t, id, pair).value, invited, key)
  {
  }

  lemma InsertDmConv(t: Tables, id: Id, pair: (Id, Id), conv: Id)
    requires InsertDm(t, id, pair).Ok? && conv in InsertDm(t, id, pair).value.convs
    requires conv in t.convs ==> ConvOk(t, conv)
    ensures ConvOk(InsertDm(t, id, pair).value, conv)
  {
  }

  lemma InsertDmExtends(t: Tables, invited: set<Invite>, id: Id, pair: (Id, Id))
    requires TablesOk(t, invited) && InsertDm(t, id, pair).Ok?
    ensures Extends(t, InsertDm(t, id, pair).value)
  {
    RowsHaveConvs(t, invited, id);
  }

  lemma InsertDmKeeps(t: Tables, invited: set<Invite>, id: Id, pair: (Id, Id))
    requires TablesOk(t, invited) && InsertDm(t, id, pair).Ok?
    ensures TablesOk(InsertDm(t, id, pair).value, invited)
  {
    var t' := InsertDm(t, id, pair).value;
    InsertDmUnique(t, id, pair);
    forall conv | conv in t'.convs ensures ConvOk(t', conv) {
      InsertDmConv(t, id, pair, conv);
    }
    forall key | key in t'.members ensures RowOk(t', invited, key) {
      InsertDmRow(t, invited, id, pair, key);
    }
  }

  lemma InsertRoomKeeps(t: Tables, invited: set<Invite>, id: Id, owner: Id)
    requires TablesOk(t, invited) && InsertRoom(t, id, owner).Ok?
    ensures TablesOk(InsertRoom(t, id, owner).value, invited)
    ensures Extends(t, InsertRoom(t, id, owner).value)
  {
    var t' := InsertRoom(t, id, owner).value;
    RowsHaveConvs(t, invited, id);
    forall conv | conv in t'.convs ensures ConvOk(t', conv) {
      if conv != id { assert ConvOk(t, conv); }
    }
    forall key | key in t'.members ensures RowOk(t', invited, key) {
      if key in t.members { assert RowOk(t, invited, key); }
    }
  }

  /** Any rewrite of one row that leaves the row acceptable. */
  lemma RowWriteKeeps(t: Tables, invited: set<Invite>, key: (Id, Id), row: Row, invited': set<Invite>)
    requires TablesOk(t, invited) && invited <= invited'
    requires key.0 in t.convs
    requires RowOk(t.(members := t.members[key := row]), invited', key)
    requires key in t.members ==> RowKept(t.members[key], row)
    ensures TablesOk(t.(members := t.members[key := row]), invited')
    ensures Extends(t, t.(members := t.members[key := row]))
  {
    var t' := t.(members := t.members[key := row]);
    forall conv | conv in t'.convs ensures ConvOk(t', conv) { assert ConvOk(t, conv); }
    forall k | k in t'.members ensures RowOk(t', invited', k) {
      if k != key { assert RowOk(t, invited, k); }
    }
  }

  lemma AddMemberKeeps(t: Tables, invited: set<Invite>, inviter: Id, conv: Id, user: Id)
    requires TablesOk(t, invited) && AddMember(t, conv, user, Member).Ok?
    requires conv in t.convs && t.convs[conv] == Conv(Room, Some(inviter))
    ensures TablesOk(AddMember(t, conv, user, Member).value, invited + {Invite(inviter, conv, user)})
    ensures Extends(t, AddMember(t, conv, user, Member).value)
  {
    var row := if (conv, user) in t.members then t.members[(conv, user)] else NEW_ROW;
    if (conv, user) in t.members { assert RowOk(t, invited, (conv, user)); }
    RowWriteKeeps(t, invited, (conv, user), row.(active := true, role := Member), invited + {Invite(inviter, conv, user)});
  }

  lemma DropMemberKeeps(t: Tables, invited: set<Invite>, conv: Id, user: Id)
    requires TablesOk(t, invited) && Removable(t, conv, user)
    ensures TablesOk(DropMember(t, conv, user), invited)
    ensures Extends(t, DropMember(t, conv, user))
  {
    assert RowOk(t, invited, (conv, user));
    if MemberRole(t, conv, user) != None {
      RowWriteKeeps(t, invited, (conv, user), t.members[(conv, user)].(active := false), invited);
    }
  }

  lemma SeqWriteKeeps(t: Tables, invited: set<Invite>, conv: Id, user: Id, seqNo: int)
    requires TablesOk(t, invited)
    ensures TablesOk(SetRead(t, conv, user, seqNo), invited) && Extends(t, SetRead(t, conv, user, seqNo))
    ensures TablesOk(SetRecv(t, conv, user, seqNo), invited) && Extends(t, SetRecv(t, conv, user, seqNo))
    ensures TablesOk(SetClear(t, conv, user, seqNo), invited) && Extends(t, SetClear(t, conv, user, seqNo))
  {
    if (conv, user) in t.members {
      var row := t.members[(conv, user)];
      assert RowOk(t, invited, (conv, user));
      RowWriteKeeps(t, invited, (conv, user), row.(readSeq := seqNo, recvSeq := Max(row.recvSeq, seqNo)), invited);
      RowWriteKeeps(t, invited, (conv, user), row.(recvSeq := Max(row.recvSeq, seqNo)), invited);
      RowWriteKeeps(t, invited, (conv, user), row.(clearSeq := seqNo), invited);
    }
  }

  lemma DmInsertKeeps(s: System, r: nat, id: Id)
    requires Inv(s)
    ensures TablesOk(Next(s, DmInsert(r, id)).t, s.invited) && Extends(s.t, Next(s, DmInsert(r, id)).t)
  {
    if !Idle(s, r) && s.requests[r].DmMissing? {
      var pair := Ordered(s.requests[r].a, s.requests[r].b);
      if InsertDm(s.t, id, pair).Ok? {
        InsertDmKeeps(s.t, s.invited, id, pair);
        InsertDmExtends(s.t, s.invited, id, pair);
      }
    }
  }

  lemma InviteWriteKeeps(s: System, r: nat)
    requires Inv(s)
    ensures TablesOk(Next(s, InviteWrite(r)).t, Next(s, InviteWrite(r)).invited) && Extends(s.t, Next(s, InviteWrite(r)).t)
  {
    if !Idle(s, r) && s.requests[r].InviteAllowed? {
      var InviteAllowed(inviter, conv, target) := s.requests[r];
      assert RequestOk(s.t, s.requests[r]);
      if AddMember(s.t, conv, target, Member).Ok? { AddMemberKeeps(s.t, s.invited, inviter, conv, target); }
    }
  }

  lemma RemoveWriteKeeps(s: System, r: nat)
    requires Inv(s)
    ensures TablesOk(Next(s, RemoveWrite(r)).t, s.invited) && Extends(s.t, Next(s, RemoveWrite(r)).t)
  {
    if !Idle(s, r) && (s.requests[r].LeaveAllowed? || s.requests[r].KickAllowed?) {
      assert RequestOk(s.t, s.requests[r]);
      DropMemberKeeps(s.t, s.invited, s.requests[r].conv, s.requests[r].target);
    }
  }

  lemma RegisterKeeps(s: System, user: Id)
    requires Inv(s)
    ensures TablesOk(Next(s, Register(user)).t, s.invited) && Extends(s.t, Next(s, Register(user)).t)
  {
    var t' := Next(s, Register(user)).t;
    forall conv | conv in t'.convs ensures ConvOk(t', conv) { assert ConvOk(s.t, conv); }
    forall key | key in t'.members ensures RowOk(t', s.invited, key) { assert RowOk(s.t, s.invited, key); }
  }

  lemma NewRoomKeeps(s: System, user: Id, id: Id)
    requires Inv(s)
    ensures TablesOk(Next(s, NewRoom(user, id)).t, s.invited) && Extends(s.t, Next(s, NewRoom(user, id)).t)
  {
    if InsertRoom(s.t, id, user).Ok? { InsertRoomKeeps(s.t, s.invited, id, user); }
  }

  /** Lookups and role checks write nothing. */
  lemma ChecksOnlyRead(s: System, step: Step)
    requires step.DmLookup? || step.InviteCheck? || step.InviteCheckTarget?
          || step.LeaveCheck? || step.KickCheck? || step.KickCheckTarget?
    ensures Next(s, step).t == s.t && Next(s, step).invited == s.invited
  {
  }

  /** The tables stay in order whatever step is taken. */
  lemma TablesStep(s: System, step: Step)
    requires Inv(s)
    ensures TablesOk(Next(s, step).t, Next(s, step).invited)
    ensures Extends(s.t, Next(s, step).t)
  {
    match step
    case Register(user) => RegisterKeeps(s, user);
    case NewRoom(user, id) => NewRoomKeeps(s, user, id);
    case DmInsert(r, id) => DmInsertKeeps(s, r, id);
    case InviteWrite(r) => InviteWriteKeeps(s, r);
    case RemoveWrite(r) => RemoveWriteKeeps(s, r);
    case Read(user, conv, seqNo) => SeqWriteKeeps(s.t, s.invited, conv, user, seqNo);
    case Recv(user, conv, seqNo) => SeqWriteKeeps(s.t, s.invited, conv, user, seqNo);
    case Clear(user, conv, seqNo) => SeqWriteKeeps(s.t, s.invited, conv, user, seqNo);
    case _ => ChecksOnlyRead(s, step);
  }

  lemma RequestExtends(t: Tables, t': Tables, request: Request)
    requires Extends(t, t') && RequestOk(t, request)
    ensures RequestOk(t', request)
  {
  }

  lemma OwnersInvite(s: System, r: nat, inviter: Id, conv: Id, target: Id)
    requires Inv(s) && Idle(s, r) && r in Next(s, InviteCheck(r, inviter, conv, target)).requests
    ensures RequestOk(s.t, InviteAsked(inviter, conv, target))
  {
    assert RowOk(s.t, s.invited, (conv, inviter));
  }

  /** The request is as it was, or was established by what the step read. */
  ghost predicate Established(s: System, after: System, r: nat)
    requires r in after.requests
  {
    (r in s.requests && s.requests[r] == after.requests[r]) || RequestOk(s.t, after.requests[r])
  }

  lemma LeaveStep(s: System, step: Step, r: nat)
    requires Inv(s) && (step.LeaveCheck? || step.KickCheck? || step.KickCheckTarget? || step.RemoveWrite?)
    requires r in Next(s, step).requests
    ensures Established(s, Next(s, step), r)
  {
  }

  lemma InviteStep(s: System, step: Step, r: nat)
    requires Inv(s) && (step.InviteCheck? || step.InviteCheckTarget? || step.InviteWrite?) && r in Next(s, step).requests
    ensures Established(s, Next(s, step), r)
  {
    if step.InviteCheck? && r == step.r && Idle(s, r) {
      OwnersInvite(s, r, step.inviter, step.conv, step.target);
    }
    if step.InviteCheckTarget? && step.r in s.requests {
      assert RequestOk(s.t, s.requests[step.r]);
    }
  }

  lemma RequestStep(s: System, step: Step, r: nat)
    requires Inv(s) && r in Next(s, step).requests
    ensures Established(s, Next(s, step), r)
  {
    if step.InviteCheck? || step.InviteCheckTarget? || step.InviteWrite? {
      InviteStep(s, step, r);
    } else if step.LeaveCheck? || step.KickCheck? || step.KickCheckTarget? || step.RemoveWrite? {
      LeaveStep(s, step, r);
    }
  }

  lemma ReturnStep(s: System, step: Step, answer: DmReturn)
    requires Inv(s) && answer in Next(s, step).returned && answer !in s.returned
    ensures ReturnOk(Next(s, step).t, answer)
  {
    match step
    case DmLookup(_, a, b) =>
    case DmInsert(r, id) => DmInsertReturns(s, r, id, answer);
    case _ =>
  }

  lemma DmInsertReturns(s: System, r: nat, id: Id, answer: DmReturn)
    requires answer in Next(s, DmInsert(r, id)).returned && answer !in s.returned
    ensures ReturnOk(Next(s, DmInsert(r, id)).t, answer)
  {
    var DmMissing(a, b) := s.requests[r];
    assert answer == DmReturn(a, b, id);
  }

  lemma StepKeeps(s: System, step: Step)
    requires Inv(s)
    ensures Inv(Next(s, step)) && Extends(s.t, Next(s, step).t)
  {
    var s' := Next(s, step);
    TablesStep(s, step);
    forall r | r in s'.requests ensures RequestOk(s'.t, s'.requests[r]) {
      RequestStep(s, step, r);
      RequestExtends(s.t, s'.t, s'.requests[r]);
    }
    forall answer | answer in s'.returned ensures ReturnOk(s'.t, answer) {
      if answer !in s.returned { ReturnStep(s, step, answer); }
    }
  }

  lemma {:induction false} Reachable(steps: seq<Step>)
    ensures Inv(Run(steps))
  {
    if steps != [] {
      Reachable(steps[..|steps| - 1]);
      StepKeeps(Run(steps[..|steps| - 1]), steps[|steps| - 1]);
    }
  }

  // ---------------------------------------------------------------- the results

  /** However checks and inserts interleave, every CreateDM on the same two users got the same conversation. */
  lemma OneDmPerPair(steps: seq<Step>, r: DmReturn, r': DmReturn)
    requires r in Run(steps).returned && r' in Run(steps).returned
    requires {r.a, r.b} == {r'.a, r'.b}
    ensures r.conv == r'.conv && r.a != r.b
  {
    Reachable(steps);
    OrderedMeetsCheck(r.a, r.b);
    var t := Run(steps).t;
    assert ReturnOk(t, r) && ReturnOk(t, r');
    assert (r'.a, r'.b) == (r.a, r.b) || (r'.a, r'.b) == (r.b, r.a) by {
      assert r'.a in {r.a, r.b} && r'.b in {r.a, r.b} && r.a in {r'.a, r'.b} && r.b in {r'.a, r'.b};
    }
    assert ConvOk(t, r.conv);
    if t.convs[r.conv].kind == Room { assert false; }
  }

  ghost function RowsOf(t: Tables, conv: Id): set<Id> {
    set key | key in t.members && key.0 == conv :: key.1
  }

  /** The member rows of a direct message are exactly its two participants', both plain members. */
  lemma DmRows(steps: seq<Step>, conv: Id)
    requires conv in Run(steps).t.convs && Run(steps).t.convs[conv].kind == Dm
    ensures
      var t := Run(steps).t;
      && conv in t.pairs && t.pairs[conv].0 != t.pairs[conv].1
      && RowsOf(t, conv) == {t.pairs[conv].0, t.pairs[conv].1}
      && forall user :: user in RowsOf(t, conv) ==> t.members[(conv, user)].role == Member
  {
    Reachable(steps);
    var t := Run(steps).t;
    assert ConvOk(t, conv);
    LessTotal(t.pairs[conv].0, t.pairs[conv].1);
    forall user | user in RowsOf(t, conv)
      ensures (user == t.pairs[conv].0 || user == t.pairs[conv].1) && t.members[(conv, user)].role == Member
    {
      assert RowOk(t, Run(steps).invited, (conv, user));
    }
    assert (conv, t.pairs[conv].0) in t.members && (conv, t.pairs[conv].1) in t.members;
  }

  /** Each row of a room is its active owner's, or a member's whom that owner invited. */
  lemma RoomRows(steps: seq<Step>, conv: Id, user: Id)
    requires conv in Run(steps).t.convs && Run(steps).t.convs[conv].kind == Room && user in RowsOf(Run(steps).t, conv)
    ensures
      var (t, row) := (Run(steps).t, Run(steps).t.members[(conv, user)]);
      && t.convs[conv].owner.Some?
      && row.role != Admin
      && (row.role == Owner ==> user == t.convs[conv].owner.value && row.active)
      && (row.role == Member ==> Invite(t.convs[conv].owner.value, conv, user) in Run(steps).invited)
  {
    Reachable(steps);
    assert ConvOk(Run(steps).t, conv);
    assert RowOk(Run(steps).t, Run(steps).invited, (conv, user));
  }

  lemma RowAdvances(t: Tables, invited: set<Invite>, t': Tables, key: (Id, Id))
    requires TablesOk(t, invited) && Extends(t, t') && key in t.members
    ensures key in t'.members && t.members[key].readSeq <= t.members[key].recvSeq <= t'.members[key].recvSeq
  {
    assert RowOk(t, invited, key) && RowKept(t.members[key], t'.members[key]);
  }

  // ---------------------------------------------------------------- when a room keeps its owner row

  /** The owner of a room has a row, and it is an owner's row unless they have invited themselves. */
  ghost predicate OwnerOk(s: System, conv: Id) {
    conv in s.t.convs && s.t.convs[conv].kind == Room && s.t.convs[conv].owner.Some? ==>
      var owner := s.t.convs[conv].owner.value;
      && (conv, owner) in s.t.members
      && (s.t.members[(conv, owner)].role == Owner <==> Invite(owner, conv, owner) !in s.invited)
  }

  ghost predicate OwnersOk(s: System) {
    && (forall conv :: OwnerOk(s, conv))
    && (forall invite :: invite in s.invited ==> invite.conv in s.t.convs)
  }

  lemma InviteKeepsOwner(s: System, r: nat, conv: Id)
    requires Inv(s) && OwnerOk(s, conv)
    ensures OwnerOk(Next(s, InviteWrite(r)), conv)
  {
    if r in s.requests && s.requests[r].InviteAllowed? {
      assert RequestOk(s.t, s.requests[r]);
    }
  }

  ghost predicate RoleStays(s: System, s': System, key: (Id, Id)) {
    && s'.invited == s.invited
    && (key in s.t.members ==> key in s'.t.members && s'.t.members[key].role == s.t.members[key].role)
  }

  /** An insert puts in the rows of its own conversation, which is a new one. */
  lemma InsertDmRows(t: Tables, id: Id, pair: (Id, Id), key: (Id, Id))
    requires InsertDm(t, id, pair).Ok? && key in t.members && key.0 in t.convs
    ensures key in InsertDm(t, id, pair).value.members && InsertDm(t, id, pair).value.members[key] == t.members[key]
  {
  }

  lemma InsertRoomRows(t: Tables, id: Id, owner: Id, key: (Id, Id))
    requires InsertRoom(t, id, owner).Ok? && key in t.members && key.0 in t.convs
    ensures key in InsertRoom(t, id, owner).value.members && InsertRoom(t, id, owner).value.members[key] == t.members[key]
  {
  }

  lemma NewRoomRole(s: System, user: Id, id: Id, key: (Id, Id))
    requires key in s.t.members && key.0 in s.t.convs
    ensures RoleStays(s, Next(s, NewRoom(user, id)), key)
  {
    if InsertRoom(s.t, id, user).Ok? { InsertRoomRows(s.t, id, user, key); }
  }

  lemma DmInsertRole(s: System, r: nat, id: Id, key: (Id, Id))
    requires key in s.t.members && key.0 in s.t.convs
    ensures RoleStays(s, DmInserted(s, r, id), key)
  {
    if r in s.requests && s.requests[r].DmMissing? {
      var pair := Ordered(s.requests[r].a, s.requests[r].b);
      if InsertDm(s.t, id, pair).Ok? { InsertDmRows(s.t, id, pair, key); }
    }
  }

  lemma WriteRole(s: System, step: Step, key: (Id, Id))
    requires step.Read? || step.Recv? || step.Clear? || step.RemoveWrite?
    ensures RoleStays(s, Next(s, step), key)
  {
  }

  /** No step but the write of an invite touches a role. */
  lemma RolesStay(s: System, step: Step, key: (Id, Id))
    requires Inv(s) && !step.InviteWrite? && key in s.t.members
    ensures RoleStays(s, Next(s, step), key)
  {
    assert RowOk(s.t, s.invited, key);
    if step.NewRoom? {
      NewRoomRole(s, step.user, step.id, key);
    } else if step.DmInsert? {
      DmInsertRole(s, step.r, step.id, key);
    } else if step.Read? || step.Recv? || step.Clear? || step.RemoveWrite? {
      WriteRole(s, step, key);
    } else if !step.Register? {
      ChecksOnlyRead(s, step);
    }
  }

  /** Only NewRoom and DmInsert make a conversation. */
  lemma ConvsAppear(s: System, step: Step, conv: Id)
    requires !step.NewRoom? && !step.DmInsert?
    ensures conv in Next(s, step).t.convs <==> conv in s.t.convs
  {
  }

  lemma NewRoomOwner(s: System, user: Id, id: Id, conv: Id)
    requires OwnersOk(s) && conv !in s.t.convs
    ensures OwnerOk(Next(s, NewRoom(user, id)), conv)
  {
    assert Invite(user, conv, user) !in s.invited;
  }

  lemma InsertDmKind(t: Tables, id: Id, pair: (Id, Id), conv: Id)
    requires InsertDm(t, id, pair).Ok? && conv !in t.convs && conv in InsertDm(t, id, pair).value.convs
    ensures InsertDm(t, id, pair).value.convs[conv].kind == Dm
  {
  }

  lemma DmInsertKind(s: System, r: nat, id: Id, conv: Id)
    requires conv !in s.t.convs
    ensures conv in DmInserted(s, r, id).t.convs ==> DmInserted(s, r, id).t.convs[conv].kind == Dm
  {
    if r in s.requests && s.requests[r].DmMissing? && conv in DmInserted(s, r, id).t.convs {
      InsertDmKind(s.t, id, Ordered(s.requests[r].a, s.requests[r].b), conv);
    }
  }

  lemma NewConvOwner(s: System, step: Step, conv: Id)
    requires OwnersOk(s) && conv !in s.t.convs
    ensures OwnerOk(Next(s, step), conv)
  {
    match step
    case NewRoom(user, id) => NewRoomOwner(s, user, id, conv);
    case DmInsert(r, id) => DmInsertKind(s, r, id, conv);
    case _ => ConvsAppear(s, step, conv);
  }

  lemma OwnersStep(s: System, step: Step)
    requires Inv(s) && OwnersOk(s)
    ensures OwnersOk(Next(s, step))
  {
    var s' := Next(s, step);
    StepKeeps(s, step);
    forall conv ensures OwnerOk(s', conv) {
      assert OwnerOk(s, conv);
      if conv !in s.t.convs {
        NewConvOwner(s, step, conv);
      } else if step.InviteWrite? {
        InviteKeepsOwner(s, step.r, conv);
      } else if s.t.convs[conv].owner.Some? && (conv, s.t.convs[conv].owner.value) in s.t.members {
        RolesStay(s, step, (conv, s.t.convs[conv].owner.value));
      }
    }
    forall invite | invite in s'.invited ensures invite.conv in s'.t.convs {
      InvitedConv(s, step, invite);
    }
  }

  lemma InvitedConv(s: System, step: Step, invite: Invite)
    requires Inv(s) && OwnersOk(s) && invite in Next(s, step).invited
    ensures invite.conv in s.t.convs
  {
    if invite !in s.invited {
      assert RequestOk(s.t, s.requests[step.r]);
    }
  }

  lemma {:induction false} OwnersReachable(steps: seq<Step>)
    ensures OwnersOk(Run(steps))
  {
    if steps != [] {
      Reachable(steps[..|steps| - 1]);
      OwnersReachable(steps[..|steps| - 1]);
      OwnersStep(Run(steps[..|steps| - 1]), steps[|steps| - 1]);
    }
  }

  /** In every run: a room's owner always has a row in it, and keeps the role exactly until they invite themselves. */
  lemma OwnerRowStays(steps: seq<Step>, conv: Id)
    requires conv in Run(steps).t.convs && Run(steps).t.convs[conv].kind == Room
    ensures
      var (t, owner) := (Run(steps).t, Run(steps).t.convs[conv].owner);
      && owner.Some? && (conv, owner.value) in t.members
      && (t.members[(conv, owner.value)].role == Owner <==> Invite(owner.value, conv, owner.value) !in Run(steps).invited)
      && (t.members[(conv, owner.value)].role == Owner ==> t.members[(conv, owner.value)].active)
  {
    Reachable(steps);
    OwnersReachable(steps);
    assert ConvOk(Run(steps).t, conv) && OwnerOk(Run(steps), conv);
    assert RowOk(Run(steps).t, Run(steps).invited, (conv, Run(steps).t.convs[conv].owner.value));
  }

  /** An owner who invites themselves is no owner afterwards, and the room has none. */
  lemma InvitedOwnerIsDemoted(a: Id, id: Id)
    ensures
      var t := Run([Register(a), NewRoom(a, id), InviteCheck(0, a, id, a), InviteCheckTarget(0), InviteWrite(0)]).t;
      && t.convs == map[id := Conv(Room, Some(a))]
      && t.members.Keys == {(id, a)}
      && MemberRole(t, id, a) == Some(Member)
  {
    var one, two := [Register(a)], [Register(a), NewRoom(a, id)];
    var three := two + [InviteCheck(0, a, id, a)];
    var four := three + [InviteCheckTarget(0)];
    var owned := Tables({a}, map[id := Conv(Room, Some(a))], map[], map[(id, a) := NEW_ROW.(role := Owner)]);
    assert one[..0] == [] && two[..1] == one && three[..2] == two && four[..3] == three;
    assert (four + [InviteWrite(0)])[..4] == four;
    assert Run(one) == System(Tables({a}, map[], map[], map[]), map[], {}, {});
    assert Run(two) == System(owned, map[], {}, {});
    assert MemberRole(owned, id, a) == Some(Owner);
    assert Run(three) == System(owned, map[0 := InviteAsked(a, id, a)], {}, {});
    assert Run(four) == System(owned, map[0 := InviteAllowed(a, id, a)], {}, {});
    assert four + [InviteWrite(0)]
        == [Register(a), NewRoom(a, id), InviteCheck(0, a, id, a), InviteCheckTarget(0), InviteWrite(0)];
  }

  /** read_seq never passes recv_seq, and recv_seq never goes back. */
  lemma ReceiptsAdvance(steps: seq<Step>, step: Step, key: (Id, Id))
    requires key in Run(steps).t.members
    ensures
      var (t, t') := (Run(steps).t, Next(Run(steps), step).t);
      && key in t'.members
      && t.members[key].readSeq <= t.members[key].recvSeq <= t'.members[key].recvSeq
  {
    Reachable(steps);
    StepKeeps(Run(steps), step);
    RowAdvances(Run(steps).t, Run(steps).invited, Next(Run(steps), step).t, key);
  }
}
