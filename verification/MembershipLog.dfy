/**
 Conversations and their members read off the history of a run: which checks a pending request
 has passed, who belongs to what in which role, and what the receipts of a row say.
 */
module MembershipLog {
  import opened Prelude
  import opened Uuid
  import opened Conversations
  import opened Membership
  import Messages

  lemma RunSnoc(init: seq<Step>, step: Step)
    ensures Run(init + [step]) == Next(Run(init), step)
  {
    assert (init + [step])[..|init|] == init;
  }

  // ---------------------------------------------------------------- what a pending request rests on

  /** The user has an active row in the conversation, with this role. */
  predicate ActsAs(t: Tables, conv: Id, user: Id, role: Role) {
    (conv, user) in t.members && t.members[(conv, user)].active && t.members[(conv, user)].role == role
  }

  /** May invite and remove. */
  predicate Commands(t: Tables, conv: Id, user: Id) {
    ActsAs(t, conv, user, Owner) || ActsAs(t, conv, user, Admin)
  }

  /** The i-th step is this one. */
  ghost predicate Taken(steps: seq<Step>, i: nat, step: Step) {
    i < |steps| && steps[i] == step
  }

  /** A check of the inviter, who commanded the conversation then. */
  ghost predicate InvitedBy(steps: seq<Step>, i: nat, r: nat, inviter: Id, conv: Id, target: Id) {
    Taken(steps, i, InviteCheck(r, inviter, conv, target)) && Commands(Run(steps[..i]).t, conv, inviter)
  }

  ghost predicate TargetKnown(steps: seq<Step>, j: nat, r: nat, target: Id) {
    Taken(steps, j, InviteCheckTarget(r)) && target in Run(steps[..j]).t.users
  }

  /** A check of the leaver, who had an active row then that was no owner's. */
  ghost predicate LeavesBy(steps: seq<Step>, i: nat, r: nat, user: Id, conv: Id) {
    Taken(steps, i, LeaveCheck(r, user, conv))
    && (ActsAs(Run(steps[..i]).t, conv, user, Member) || ActsAs(Run(steps[..i]).t, conv, user, Admin))
  }

  /** A check of the kicker, who acted in this role then. */
  ghost predicate KickedBy(steps: seq<Step>, i: nat, r: nat, role: Role, conv: Id, target: Id) {
    && i < |steps| && steps[i].KickCheck? && steps[i].r == r && steps[i].conv == conv && steps[i].target == target
    && role != Member && ActsAs(Run(steps[..i]).t, conv, steps[i].inviter, role)
  }

  /** An owner is never removed, an admin only by the owner. */
  predicate Below(t: Tables, conv: Id, target: Id, role: Role) {
    ActsAs(t, conv, target, Member) || (role == Owner && ActsAs(t, conv, target, Admin))
  }

  ghost predicate TargetBelow(steps: seq<Step>, j: nat, r: nat, role: Role, conv: Id, target: Id) {
    Taken(steps, j, KickCheckTarget(r)) && Below(Run(steps[..j]).t, conv, target, role)
  }

  ghost predicate InvitedKnown(steps: seq<Step>, i: nat, j: nat, r: nat, inviter: Id, conv: Id, target: Id) {
    i < j && InvitedBy(steps, i, r, inviter, conv, target) && TargetKnown(steps, j, r, target)
  }

  ghost predicate KickedBelow(steps: seq<Step>, i: nat, j: nat, r: nat, role: Role, conv: Id, target: Id) {
    i < j && KickedBy(steps, i, r, role, conv, target) && TargetBelow(steps, j, r, role, conv, target)
  }

  ghost predicate Missing(steps: seq<Step>, i: nat, r: nat, a: Id, b: Id) {
    Taken(steps, i, DmLookup(r, a, b)) && !HasDm(Run(steps[..i]).t, Ordered(a, b))
  }

  ghost predicate Rests(steps: seq<Step>, r: nat, request: Request) {
    match request
    case DmMissing(a, b) => exists i: nat :: Missing(steps, i, r, a, b)
    case InviteAsked(inviter, conv, target) => exists i: nat :: InvitedBy(steps, i, r, inviter, conv, target)
    case InviteAllowed(inviter, conv, target) => exists i: nat, j: nat :: InvitedKnown(steps, i, j, r, inviter, conv, target)
    case LeaveAllowed(conv, user) => exists i: nat :: LeavesBy(steps, i, r, user, conv)
    case KickAsked(role, conv, target) => exists i: nat :: KickedBy(steps, i, r, role, conv, target)
    case KickAllowed(conv, target) => exists i: nat, j: nat, role :: KickedBelow(steps, i, j, r, role, conv, target)
  }

  // ---------------------------------------------------------------- earlier checks stay in the history

  lemma Earlier(init: seq<Step>, step: Step, i: nat)
    requires i < |init|
    ensures (init + [step])[i] == init[i] && (init + [step])[..i] == init[..i]
  {
  }

  lemma InvitedStays(init: seq<Step>, step: Step, i: nat, r: nat, inviter: Id, conv: Id, target: Id)
    requires InvitedBy(init, i, r, inviter, conv, target)
    ensures InvitedBy(init + [step], i, r, inviter, conv, target)
  {
    Earlier(init, step, i);
  }

  lemma KnownStays(init: seq<Step>, step: Step, i: nat, j: nat, r: nat, inviter: Id, conv: Id, target: Id)
    requires InvitedKnown(init, i, j, r, inviter, conv, target)
    ensures InvitedKnown(init + [step], i, j, r, inviter, conv, target)
  {
    Earlier(init, step, i);
    Earlier(init, step, j);
  }

  lemma LeavesStays(init: seq<Step>, step: Step, i: nat, r: nat, user: Id, conv: Id)
    requires LeavesBy(init, i, r, user, conv)
    ensures LeavesBy(init + [step], i, r, user, conv)
  {
    Earlier(init, step, i);
  }

  lemma KickedStays(init: seq<Step>, step: Step, i: nat, r: nat, role: Role, conv: Id, target: Id)
    requires KickedBy(init, i, r, role, conv, target)
    ensures KickedBy(init + [step], i, r, role, conv, target)
  {
    Earlier(init, step, i);
  }

  lemma BelowStays(init: seq<Step>, step: Step, i: nat, j: nat, r: nat, role: Role, conv: Id, target: Id)
    requires KickedBelow(init, i, j, r, role, conv, target)
    ensures KickedBelow(init + [step], i, j, r, role, conv, target)
  {
    Earlier(init, step, i);
    Earlier(init, step, j);
  }

  lemma MissingStays(init: seq<Step>, step: Step, i: nat, r: nat, a: Id, b: Id)
    requires Missing(init, i, r, a, b)
    ensures Missing(init + [step], i, r, a, b)
  {
    Earlier(init, step, i);
  }

  lemma RestsStays(init: seq<Step>, step: Step, r: nat, request: Request)
    requires Rests(init, r, request)
    ensures Rests(init + [step], r, request)
  {
    match request
    case DmMissing(a, b) =>
      var i: nat :| Missing(init, i, r, a, b);
      MissingStays(init, step, i, r, a, b);
    case InviteAsked(inviter, conv, target) =>
      var i: nat :| InvitedBy(init, i, r, inviter, conv, target);
      InvitedStays(init, step, i, r, inviter, conv, target);
    case InviteAllowed(inviter, conv, target) =>
      var i: nat, j: nat :| InvitedKnown(init, i, j, r, inviter, conv, target);
      KnownStays(init, step, i, j, r, inviter, conv, target);
    case LeaveAllowed(conv, user) =>
      var i: nat :| LeavesBy(init, i, r, user, conv);
      LeavesStays(init, step, i, r, user, conv);
    case KickAsked(role, conv, target) =>
      var i: nat :| KickedBy(init, i, r, role, conv, target);
      KickedStays(init, step, i, r, role, conv, target);
    case KickAllowed(conv, target) =>
      var i: nat, j: nat, role :| KickedBelow(init, i, j, r, role, conv, target);
      BelowStays(init, step, i, j, r, role, conv, target);
  }

  // ---------------------------------------------------------------- what a check finds

  /** The request is pending after the step, and was not, or not at this point. */
  ghost predicate Moves(s: System, step: Step, r: nat) {
    r in Next(s, step).requests && (r !in s.requests || s.requests[r] != Next(s, step).requests[r])
  }

  lemma InviteMoves(s: System, step: Step, r: nat)
    requires step.InviteCheck? && Moves(s, step, r)
    ensures step.r == r && Next(s, step).requests[r] == InviteAsked(step.inviter, step.conv, step.target)
    ensures Commands(s.t, step.conv, step.inviter)
  {
  }

  lemma TargetMoves(s: System, step: Step, r: nat)
    requires step.InviteCheckTarget? && Moves(s, step, r)
    ensures step.r == r && r in s.requests && s.requests[r].InviteAsked?
    ensures var InviteAsked(inviter, conv, target) := s.requests[r];
            Next(s, step).requests[r] == InviteAllowed(inviter, conv, target) && target in s.t.users
  {
  }

  lemma LeaveMoves(s: System, step: Step, r: nat)
    requires step.LeaveCheck? && Moves(s, step, r)
    ensures step.r == r && Next(s, step).requests[r] == LeaveAllowed(step.conv, step.user)
    ensures ActsAs(s.t, step.conv, step.user, Member) || ActsAs(s.t, step.conv, step.user, Admin)
  {
  }

  lemma KickMoves(s: System, step: Step, r: nat)
    requires step.KickCheck? && Moves(s, step, r)
    ensures step.r == r && Next(s, step).requests[r].KickAsked?
    ensures var role := Next(s, step).requests[r].asRole;
            && Next(s, step).requests[r] == KickAsked(role, step.conv, step.target)
            && role != Member && ActsAs(s.t, step.conv, step.inviter, role)
  {
  }

  lemma KickTargetMoves(s: System, step: Step, r: nat)
    requires step.KickCheckTarget? && Moves(s, step, r)
    ensures step.r == r && r in s.requests && s.requests[r].KickAsked?
    ensures var KickAsked(role, conv, target) := s.requests[r];
            Next(s, step).requests[r] == KickAllowed(conv, target) && (role != Member ==> Below(s.t, conv, target, role))
  {
  }

  lemma LookupMoves(s: System, step: Step, r: nat)
    requires step.DmLookup? && Moves(s, step, r)
    ensures step.r == r && Next(s, step).requests[r] == DmMissing(step.a, step.b) && !HasDm(s.t, Ordered(step.a, step.b))
  {
  }

  lemma WritesEnd(s: System, step: Step, r: nat)
    requires !step.DmLookup? && !step.InviteCheck? && !step.InviteCheckTarget?
    requires !step.LeaveCheck? && !step.KickCheck? && !step.KickCheckTarget?
    ensures !Moves(s, step, r)
  {
  }

  // ---------------------------------------------------------------- every request rests on its checks

  lemma LastStep(init: seq<Step>, step: Step)
    ensures Taken(init + [step], |init|, step) && (init + [step])[..|init|] == init
  {
  }

  lemma TargetRests(init: seq<Step>, step: Step, r: nat, inviter: Id, conv: Id, target: Id)
    requires step == InviteCheckTarget(r) && target in Run(init).t.users && Rests(init, r, InviteAsked(inviter, conv, target))
    ensures Rests(init + [step], r, InviteAllowed(inviter, conv, target))
  {
    LastStep(init, step);
    var i: nat :| InvitedBy(init, i, r, inviter, conv, target);
    InvitedStays(init, step, i, r, inviter, conv, target);
    assert InvitedKnown(init + [step], i, |init|, r, inviter, conv, target);
  }

  lemma KickTargetRests(init: seq<Step>, step: Step, r: nat, role: Role, conv: Id, target: Id)
    requires step == KickCheckTarget(r) && (role != Member ==> Below(Run(init).t, conv, target, role))
    requires Rests(init, r, KickAsked(role, conv, target))
    ensures Rests(init + [step], r, KickAllowed(conv, target))
  {
    LastStep(init, step);
    var i: nat :| KickedBy(init, i, r, role, conv, target);
    KickedStays(init, step, i, r, role, conv, target);
    assert KickedBelow(init + [step], i, |init|, r, role, conv, target);
  }

  lemma CheckRests(init: seq<Step>, step: Step, r: nat)
    requires Moves(Run(init), step, r) && (r in Run(init).requests ==> Rests(init, r, Run(init).requests[r]))
    ensures Rests(init + [step], r, Next(Run(init), step).requests[r])
  {
    var s, all, n: nat := Run(init), init + [step], |init|;
    LastStep(init, step);
    match step
    case DmLookup(_, a, b) =>
      LookupMoves(s, step, r);
      assert Missing(all, n, r, a, b);
    case InviteCheck(_, inviter, conv, target) =>
      InviteMoves(s, step, r);
      assert InvitedBy(all, n, r, inviter, conv, target);
    case InviteCheckTarget(_) =>
      TargetMoves(s, step, r);
      TargetRests(init, step, r, s.requests[r].inviter, s.requests[r].conv, s.requests[r].target);
    case LeaveCheck(_, user, conv) =>
      LeaveMoves(s, step, r);
      assert LeavesBy(all, n, r, user, conv);
    case KickCheck(_, _, conv, target) =>
      KickMoves(s, step, r);
      assert KickedBy(all, n, r, Next(s, step).requests[r].asRole, conv, target);
    case KickCheckTarget(_) =>
      KickTargetMoves(s, step, r);
      KickTargetRests(init, step, r, s.requests[r].asRole, s.requests[r].conv, s.requests[r].target);
    case _ => WritesEnd(s, step, r);
  }

  /**
   Every request that is about to write rests on the checks it has passed, in their order: whoever
   invites or removes had an active row as owner or admin, whoever leaves one that is no owner's,
   and whoever is removed ranked below.
   */
  lemma {:induction false} RequestsRest(steps: seq<Step>, r: nat)
    requires r in Run(steps).requests
    ensures Rests(steps, r, Run(steps).requests[r])
  {
    assert steps != [];
    var init, last := steps[..|steps| - 1], steps[|steps| - 1];
    assert steps == init + [last];
    if r in Run(init).requests {
      RequestsRest(init, r);
    }
    if Moves(Run(init), last, r) {
      CheckRests(init, last, r);
    } else {
      RestsStays(init, last, r, Run(init).requests[r]);
    }
  }

  // ---------------------------------------------------------------- who belongs to what

  const NEWCOMER := Row(Member, true, 0, 0, 0)

  function OrNew(row: Option<Row>): Row {
    match row case None => NEWCOMER case Some(row) => row
  }

  /** The write of the request will be an invite of the user into the conversation. */
  ghost predicate Invites(s: System, r: nat, conv: Id, user: Id) {
    r in s.requests && s.requests[r].InviteAllowed? && s.requests[r].conv == conv && s.requests[r].target == user
  }

  ghost predicate Removes(s: System, r: nat, conv: Id, user: Id) {
    && r in s.requests && (s.requests[r].LeaveAllowed? || s.requests[r].KickAllowed?)
    && s.requests[r].conv == conv && s.requests[r].target == user
  }

  /** The write of the request will make a direct message that the user belongs to. */
  ghost predicate Opens(s: System, r: nat, id: Id, user: Id) {
    && r in s.requests && s.requests[r].DmMissing? && (user == s.requests[r].a || user == s.requests[r].b)
    && s.requests[r].a != s.requests[r].b && s.requests[r].a in s.t.users && s.requests[r].b in s.t.users
    && id !in s.t.convs && !HasDm(s.t, Ordered(s.requests[r].a, s.requests[r].b))
  }

  /** The row of a user in a conversation, as the history tells it. */
  ghost function RowOf(steps: seq<Step>, conv: Id, user: Id): Option<Row> {
    if steps == [] then None
    else
      var init := steps[..|steps| - 1];
      Told(Run(init), RowOf(init, conv, user), steps[|steps| - 1], conv, user)
  }

  /** What one step makes of it. */
  ghost function Told(s: System, was: Option<Row>, step: Step, conv: Id, user: Id): Option<Row> {
    match step
    case NewRoom(owner, id) =>
      if id == conv && owner == user && id !in s.t.convs && owner in s.t.users then Some(Row(Owner, true, 0, 0, 0)) else was
    case DmInsert(r, id) => if id == conv && Opens(s, r, id, user) then Some(NEWCOMER) else was
    case InviteWrite(r) =>
      if Invites(s, r, conv, user) && conv in s.t.convs && user in s.t.users
      then Some(OrNew(was).(role := Member, active := true)) else was
    case RemoveWrite(r) => if Removes(s, r, conv, user) && was.Some? then Some(was.value.(active := false)) else was
    case Read(u, c, n) =>
      if u == user && c == conv && was.Some?
      then Some(was.value.(readSeq := n, recvSeq := if n > was.value.recvSeq then n else was.value.recvSeq)) else was
    case Recv(u, c, n) =>
      if u == user && c == conv && was.Some? && n > was.value.recvSeq then Some(was.value.(recvSeq := n)) else was
    case Clear(u, c, n) => if u == user && c == conv && was.Some? then Some(was.value.(clearSeq := n)) else was
    case _ => was
  }

  ghost function RowIn(t: Tables, conv: Id, user: Id): Option<Row> {
    if (conv, user) in t.members then Some(t.members[(conv, user)]) else None
  }

  lemma RoomTells(s: System, owner: Id, id: Id, conv: Id, user: Id)
    requires Inv(s)
    ensures RowIn(Next(s, NewRoom(owner, id)).t, conv, user) == Told(s, RowIn(s.t, conv, user), NewRoom(owner, id), conv, user)
  {
    if (conv, user) in s.t.members {
      assert RowOk(s.t, s.invited, (conv, user));
    }
  }

  lemma Swapped(members: map<(Id, Id), Row>, key: (Id, Id), other: (Id, Id), row: Row)
    ensures members[key := row][other := row] == members[other := row][key := row]
  {
  }

  lemma InsertIs(t: Tables, id: Id, a: Id, b: Id)
    requires InsertDm(t, id, Ordered(a, b)).Ok?
    ensures InsertDm(t, id, Ordered(a, b)).value
         == Tables(t.users, t.convs[id := Conv(Dm, None)], t.pairs[id := Ordered(a, b)],
                   t.members[(id, a) := NEWCOMER][(id, b) := NEWCOMER])
  {
    Swapped(t.members, (id, a), (id, b), NEWCOMER);
    assert Ordered(a, b) == (a, b) || Ordered(a, b) == (b, a);
  }

  lemma InsertTells(t: Tables, id: Id, a: Id, b: Id, conv: Id, user: Id)
    requires InsertDm(t, id, Ordered(a, b)).Ok? && ((conv, user) in t.members ==> conv in t.convs)
    ensures RowIn(InsertDm(t, id, Ordered(a, b)).value, conv, user)
         == if conv == id && (user == a || user == b) then Some(NEWCOMER) else RowIn(t, conv, user)
  {
    InsertIs(t, id, a, b);
  }

  lemma DmTells(s: System, r: nat, id: Id, conv: Id, user: Id)
    requires Inv(s)
    ensures RowIn(DmInserted(s, r, id).t, conv, user) == Told(s, RowIn(s.t, conv, user), DmInsert(r, id), conv, user)
  {
    if r in s.requests && s.requests[r].DmMissing? {
      var a, b := s.requests[r].a, s.requests[r].b;
      InsertRefused(s.t, id, a, b);
      if InsertDm(s.t, id, Ordered(a, b)).Ok? {
        assert (conv, user) in s.t.members ==> conv in s.t.convs by {
          assert (conv, user) in s.t.members ==> RowOk(s.t, s.invited, (conv, user));
        }
        InsertTells(s.t, id, a, b, conv, user);
      }
    }
  }

  lemma InsertRefused(t: Tables, id: Id, a: Id, b: Id)
    ensures InsertDm(t, id, Ordered(a, b)).Ok?
       <==> id !in t.convs && a in t.users && b in t.users && a != b && !HasDm(t, Ordered(a, b))
  {
    OrderedMeetsCheck(a, b);
    assert Ordered(a, b) == (a, b) || Ordered(a, b) == (b, a);
  }

  lemma WriteTells(s: System, step: Step, conv: Id, user: Id)
    requires step.InviteWrite? || step.RemoveWrite?
    ensures RowIn(Next(s, step).t, conv, user) == Told(s, RowIn(s.t, conv, user), step, conv, user)
  {
  }

  lemma ReceiptTells(s: System, step: Step, conv: Id, user: Id)
    requires step.Read? || step.Recv? || step.Clear?
    ensures RowIn(Next(s, step).t, conv, user) == Told(s, RowIn(s.t, conv, user), step, conv, user)
  {
  }

  lemma StepTells(s: System, step: Step, conv: Id, user: Id)
    requires Inv(s)
    ensures RowIn(Next(s, step).t, conv, user) == Told(s, RowIn(s.t, conv, user), step, conv, user)
  {
    match step
    case NewRoom(owner, id) => RoomTells(s, owner, id, conv, user);
    case DmInsert(r, id) => DmTells(s, r, id, conv, user);
    case InviteWrite(_) => WriteTells(s, step, conv, user);
    case RemoveWrite(_) => WriteTells(s, step, conv, user);
    case Read(_, _, _) => ReceiptTells(s, step, conv, user);
    case Recv(_, _, _) => ReceiptTells(s, step, conv, user);
    case Clear(_, _, _) => ReceiptTells(s, step, conv, user);
    case Register(_) =>
    case _ => ChecksOnlyRead(s, step);
  }

  /** Every member row, its role, whether it is active and its three numbers are what the history tells. */
  lemma {:induction false} RowsToldBy(steps: seq<Step>, conv: Id, user: Id)
    ensures RowIn(Run(steps).t, conv, user) == RowOf(steps, conv, user)
    ensures MemberRole(Run(steps).t, conv, user)
         == match RowOf(steps, conv, user) case None => None case Some(row) => if row.active then Some(row.role) else None
  {
    if steps != [] {
      var init := steps[..|steps| - 1];
      RowsToldBy(init, conv, user);
      Reachable(init);
      StepTells(Run(init), steps[|steps| - 1], conv, user);
    }
  }

  // ---------------------------------------------------------------- left alone, a request does what its checks allow

  lemma PutBack(requests: map<nat, Request>, r: nat, to: Request, next: Request)
    requires r !in requests
    ensures requests[r := to] - {r} == requests && requests[r := to][r := next] == requests[r := next]
  {
  }

  ghost function Inactive(s: System, conv: Id, user: Id): System
    requires (conv, user) in s.t.members
  {
    s.(t := s.t.(members := s.t.members[(conv, user) := s.t.members[(conv, user)].(active := false)]))
  }

  lemma RemovalWritten(s: System, r: nat, to: Request, conv: Id, user: Id)
    requires r !in s.requests && (to == LeaveAllowed(conv, user) || to == KickAllowed(conv, user))
    requires (conv, user) in s.t.members && s.t.members[(conv, user)].active
    ensures Next(Goes(s, r, to), RemoveWrite(r)) == Inactive(s, conv, user)
  {
    PutBack(s.requests, r, to, to);
  }

  /** Leaving, with nothing in between: everybody with an active row can, but for the owner. */
  lemma LeaveAlone(s: System, r: nat, user: Id, conv: Id)
    requires r !in s.requests
    ensures Next(Next(s, LeaveCheck(r, user, conv)), RemoveWrite(r))
         == if ActsAs(s.t, conv, user, Member) || ActsAs(s.t, conv, user, Admin) then Inactive(s, conv, user) else s
  {
    if ActsAs(s.t, conv, user, Member) || ActsAs(s.t, conv, user, Admin) {
      RemovalWritten(s, r, LeaveAllowed(conv, user), conv, user);
    }
  }

  lemma KickAsks(s: System, r: nat, kicker: Id, conv: Id, target: Id)
    requires r !in s.requests
    ensures Next(s, KickCheck(r, kicker, conv, target))
         == if ActsAs(s.t, conv, kicker, Owner) then Goes(s, r, KickAsked(Owner, conv, target))
            else if ActsAs(s.t, conv, kicker, Admin) then Goes(s, r, KickAsked(Admin, conv, target))
            else s
  {
  }

  lemma KickLooks(s: System, r: nat, role: Role, conv: Id, target: Id)
    requires r !in s.requests && role != Member
    ensures Next(Goes(s, r, KickAsked(role, conv, target)), KickCheckTarget(r))
         == if Below(s.t, conv, target, role) then Goes(s, r, KickAllowed(conv, target)) else s
  {
    PutBack(s.requests, r, KickAsked(role, conv, target), KickAllowed(conv, target));
  }

  /** Removing somebody, with nothing in between: the owner removes members and admins, an admin members. */
  lemma KickAlone(s: System, r: nat, kicker: Id, conv: Id, target: Id)
    requires r !in s.requests
    ensures Next(Next(Next(s, KickCheck(r, kicker, conv, target)), KickCheckTarget(r)), RemoveWrite(r))
         == if (ActsAs(s.t, conv, kicker, Owner) && (ActsAs(s.t, conv, target, Member) || ActsAs(s.t, conv, target, Admin)))
               || (ActsAs(s.t, conv, kicker, Admin) && ActsAs(s.t, conv, target, Member))
            then Inactive(s, conv, target) else s
  {
    KickAsks(s, r, kicker, conv, target);
    KickLooks(s, r, Owner, conv, target);
    KickLooks(s, r, Admin, conv, target);
    if ActsAs(s.t, conv, target, Member) || ActsAs(s.t, conv, target, Admin) {
      RemovalWritten(s, r, KickAllowed(conv, target), conv, target);
    }
  }

  lemma InviteAsks(s: System, r: nat, inviter: Id, conv: Id, target: Id)
    requires r !in s.requests
    ensures Next(Next(s, InviteCheck(r, inviter, conv, target)), InviteCheckTarget(r))
         == if Commands(s.t, conv, inviter) && target in s.t.users then Goes(s, r, InviteAllowed(inviter, conv, target)) else s
  {
    PutBack(s.requests, r, InviteAsked(inviter, conv, target), InviteAllowed(inviter, conv, target));
  }

  /** Inviting, with nothing in between: whoever commands the room makes any user an active member of it. */
  lemma InviteAlone(s: System, r: nat, inviter: Id, conv: Id, target: Id)
    requires r !in s.requests && Inv(s)
    ensures
      var row := OrNew(RowIn(s.t, conv, target)).(role := Member, active := true);
      Next(Next(Next(s, InviteCheck(r, inviter, conv, target)), InviteCheckTarget(r)), InviteWrite(r))
      == if Commands(s.t, conv, inviter) && target in s.t.users
         then s.(t := s.t.(members := s.t.members[(conv, target) := row]), invited := s.invited + {Invite(inviter, conv, target)})
         else s
  {
    InviteAsks(s, r, inviter, conv, target);
    PutBack(s.requests, r, InviteAllowed(inviter, conv, target), InviteAllowed(inviter, conv, target));
    assert Commands(s.t, conv, inviter) ==> RowOk(s.t, s.invited, (conv, inviter));
  }

  /** CreateDM, with nothing in between: the conversation there is, or a new one that both of two different users are in. */
  lemma DmAlone(s: System, r: nat, a: Id, b: Id, id: Id)
    requires r !in s.requests
    ensures
      var (pair, s') := (Ordered(a, b), Next(Next(s, DmLookup(r, a, b)), DmInsert(r, id)));
      if HasDm(s.t, pair)
      then exists conv ::
             conv in s.t.pairs && s.t.pairs[conv] == pair && s' == s.(returned := s.returned + {DmReturn(a, b, conv)})
      else s' == if id !in s.t.convs && a in s.t.users && b in s.t.users && a != b
                 then s.(returned := s.returned + {DmReturn(a, b, id)},
                         t := Tables(s.t.users, s.t.convs[id := Conv(Dm, None)], s.t.pairs[id := pair],
                                     s.t.members[(id, a) := NEWCOMER][(id, b) := NEWCOMER]))
                 else s
  {
    PutBack(s.requests, r, DmMissing(a, b), DmMissing(a, b));
    InsertRefused(s.t, id, a, b);
    if HasDm(s.t, Ordered(a, b)) {
      assert DmOf(s.t, Ordered(a, b)) in s.t.pairs;
    } else if InsertDm(s.t, id, Ordered(a, b)).Ok? {
      InsertIs(s.t, id, a, b);
    }
  }

  // ---------------------------------------------------------------- clearing a history

  /** Some later clear of the same history. */
  ghost predicate ClearedAgain(later: seq<Step>, conv: Id, user: Id) {
    exists i :: 0 <= i < |later| && later[i].Clear? && later[i].user == user && later[i].conv == conv
  }

  lemma RowOfSnoc(init: seq<Step>, last: Step, conv: Id, user: Id)
    ensures RowOf(init + [last], conv, user) == Told(Run(init), RowOf(init, conv, user), last, conv, user)
  {
    assert (init + [last])[..|init|] == init;
  }

  lemma ClearKept(init: seq<Step>, last: Step, conv: Id, user: Id, c: int)
    requires RowOf(init, conv, user).Some? && RowOf(init, conv, user).value.clearSeq == c
    requires !(last.Clear? && last.user == user && last.conv == conv)
    ensures RowOf(init + [last], conv, user).Some? && RowOf(init + [last], conv, user).value.clearSeq == c
  {
    Reachable(init);
    RowsToldBy(init, conv, user);
    assert RowOk(Run(init).t, Run(init).invited, (conv, user));
    RowOfSnoc(init, last, conv, user);
  }

  lemma {:induction false} ClearStands(steps: seq<Step>, later: seq<Step>, conv: Id, user: Id, c: int)
    requires RowOf(steps, conv, user).Some? && !ClearedAgain(later, conv, user)
    ensures RowOf(steps + [Clear(user, conv, c)] + later, conv, user).Some?
    ensures RowOf(steps + [Clear(user, conv, c)] + later, conv, user).value.clearSeq == c
  {
    var cleared := steps + [Clear(user, conv, c)];
    if later == [] {
      RowOfSnoc(steps, Clear(user, conv, c), conv, user);
      assert cleared + later == cleared;
    } else {
      var init, last := later[..|later| - 1], later[|later| - 1];
      assert forall i :: 0 <= i < |init| ==> init[i] == later[i];
      ClearStands(steps, init, conv, user, c);
      ClearKept(cleared + init, last, conv, user, c);
      assert cleared + later == (cleared + init) + [last];
    }
  }

  /** After a clear no page fetched with the member's clear_seq holds a message up to there, until they clear again. */
  lemma ClearedIsNotListed(steps: seq<Step>, later: seq<Step>, conv: Id, user: Id, c: int,
                           t: Messages.Tables, name: string, reader: string, before: int, limit: nat, page: seq<int>, n: int)
    requires (conv, user) in Run(steps).t.members && !ClearedAgain(later, conv, user)
    ensures (conv, user) in Run(steps + [Clear(user, conv, c)] + later).t.members
    ensures
      var clear := Run(steps + [Clear(user, conv, c)] + later).t.members[(conv, user)].clearSeq;
      Messages.IsPage(t, name, reader, before, clear, limit, page) && n <= c ==> n !in page
  {
    var all := steps + [Clear(user, conv, c)] + later;
    RowsToldBy(steps, conv, user);
    ClearStands(steps, later, conv, user, c);
    RowsToldBy(all, conv, user);
    var clear := Run(all).t.members[(conv, user)].clearSeq;
    if Messages.IsPage(t, name, reader, before, clear, limit, page) {
      Messages.PageByColumns(t, name, reader, before, clear, limit, page, n);
    }
  }
}
