/**
 handleRead of handlers_conv.go after its UpdateReadSeq: a page of messages is fetched, and for
 each of them that another user sent a read is recorded.  RecordMessageRead is itself a SELECT
 and an INSERT; other requests take place before every statement, and any statement can fail, which
 the handler ignores.
 */
module ReadLoop {
  import opened Prelude
  import opened Heads
  import opened Messages
  import opened MessageRuns

  /** What the others make of the tables just before the k-th statement, whether it fails, the clock of the i-th read. */
  datatype Env = Env(others: (nat, Tables) -> Tables, fails: nat -> bool, now: nat -> Time)

  function At(t: Tables, env: Env, k: nat): Tables {
    env.others(k, t)
  }

  ghost predicate IsRun(t: Tables, t': Tables) {
    exists changes :: t' == Changed(t, changes)
  }

  ghost predicate Lawful(env: Env) {
    forall k, t :: IsRun(t, At(t, env, k))
  }

  function Changed(t: Tables, changes: seq<Change>): Tables {
    if changes == [] then t else Apply(Changed(t, changes[..|changes| - 1]), changes[|changes| - 1])
  }

  /** The read of the i-th message of the page: statements 2i + 1 and 2i + 2. */
  function Recorded(t: Tables, env: Env, i: nat, key: Key, user: User): Tables {
    var seen := At(t, env, 2 * i + 1);
    if env.fails(2 * i + 1) || key !in seen.messages || seen.messages[key].from == user then seen
    else
      var later := At(seen, env, 2 * i + 2);
      if env.fails(2 * i + 2) then later else ReadInserted(later, key, user, env.now(i), Expiry(seen, key, env.now(i)))
  }

  predicate FromOther(t: Tables, key: Key, user: User) {
    key in t.messages && t.messages[key].from != user
  }

  /** The i-th turn of the loop, on message `key`; `fetched` are the tables the page was read from. */
  function Turn(fetched: Tables, t: Tables, env: Env, i: nat, key: Key, user: User): Tables {
    if FromOther(fetched, key, user) then Recorded(t, env, i, key, user) else t
  }

  /** The tables after the first n turns. */
  function Turns(fetched: Tables, env: Env, conv: ConvId, user: User, page: seq<int>, n: nat): Tables
    requires n <= |page|
  {
    if n == 0 then fetched
    else Turn(fetched, Turns(fetched, env, conv, user, page, n - 1), env, n - 1, (conv, page[n - 1]), user)
  }

  method Others(db: Store, env: Env, k: nat)
    modifies db
    ensures db.View() == At(old(db.View()), env, k)
  {
    var t := At(db.View(), env, k);
    db.convs, db.messages, db.deletions, db.readRows := t.convs, t.messages, t.deletions, t.readRows;
  }

  method RecordMessageRead(db: Store, env: Env, i: nat, key: Key, user: User)
    modifies db
    ensures db.View() == Recorded(old(db.View()), env, i, key, user)
  {
    Others(db, env, 2 * i + 1);
    if env.fails(2 * i + 1) || key !in db.messages || db.messages[key].from == user {
      return;
    }
    var now, m := env.now(i), db.messages[key];
    var expiresAt := None;
    if m.viewOnce && m.viewOnceTTL.Some? {
      expiresAt := Some(now + m.viewOnceTTL.value * SECOND);
    } else if key.0 in db.convs && db.convs[key.0].ttl.Some? {
      expiresAt := Some(now + db.convs[key.0].ttl.value * SECOND);
    }
    Others(db, env, 2 * i + 2);
    if !env.fails(2 * i + 2) {
      db.InsertRead(key, user, now, expiresAt);
    }
  }

  method HandleRead(db: Store, env: Env, conv: ConvId, user: User, n: int) returns (page: seq<int>)
    requires Lawful(env) && TablesOk(db.View()) && n > 0
    modifies db
    ensures if env.fails(0) then page == [] else IsPage(At(old(db.View()), env, 0), conv, user, n + 1, 0, Clamp(n), page)
    ensures db.View() == Turns(At(old(db.View()), env, 0), env, conv, user, page, |page|)
  {
    AtKeeps(db.View(), env, 0);
    Others(db, env, 0);
    ghost var fetched := db.View();
    page := [];
    if env.fails(0) {
      return;
    }
    page := db.GetMessages(conv, user, n + 1, n, 0);
    var senders := map k | k in page && (conv, k) in db.messages :: db.messages[(conv, k)].from;
    for i := 0 to |page|
      invariant db.View() == Turns(fetched, env, conv, user, page, i)
    {
      assert page[i] in page;
      if page[i] in senders && senders[page[i]] != user {
        RecordMessageRead(db, env, i, (conv, page[i]), user);
      }
    }
  }

  // ---------------------------------------------------------------- what it leaves

  lemma {:induction false} ChangedKeeps(t: Tables, changes: seq<Change>)
    requires TablesOk(t)
    ensures TablesOk(Changed(t, changes)) && Extends(t, Changed(t, changes))
  {
    if changes != [] {
      var before := Changed(t, changes[..|changes| - 1]);
      ChangedKeeps(t, changes[..|changes| - 1]);
      ApplyKeeps(before, changes[|changes| - 1]);
      ExtendsTransitive(t, before, Changed(t, changes));
    }
  }

  lemma AtKeeps(t: Tables, env: Env, k: nat)
    requires Lawful(env) && TablesOk(t)
    ensures TablesOk(At(t, env, k)) && Extends(t, At(t, env, k))
  {
    assert IsRun(t, At(t, env, k));
    var changes :| At(t, env, k) == Changed(t, changes);
    ChangedKeeps(t, changes);
  }

  lemma BothKeep(t: Tables, env: Env, k: nat)
    requires Lawful(env) && TablesOk(t)
    ensures TablesOk(At(t, env, k)) && Extends(t, At(t, env, k))
    ensures TablesOk(At(At(t, env, k), env, k + 1)) && Extends(t, At(At(t, env, k), env, k + 1))
  {
    AtKeeps(t, env, k);
    AtKeeps(At(t, env, k), env, k + 1);
    ExtendsTransitive(t, At(t, env, k), At(At(t, env, k), env, k + 1));
  }

  /** Both statements of the i-th read went through. */
  predicate Served(env: Env, i: nat) {
    !env.fails(2 * i + 1) && !env.fails(2 * i + 2)
  }

  lemma ServedKeeps(t: Tables, env: Env, i: nat, key: Key, user: User)
    requires Lawful(env) && TablesOk(t) && FromOther(t, key, user) && Served(env, i)
    ensures TablesOk(Recorded(t, env, i, key, user)) && Extends(t, Recorded(t, env, i, key, user))
    ensures (key, user) in Recorded(t, env, i, key, user).readRows
  {
    var seen := At(t, env, 2 * i + 1);
    var later := At(seen, env, 2 * i + 2);
    BothKeep(t, env, 2 * i + 1);
    assert FromOther(seen, key, user) && FromOther(later, key, user);
    var expiresAt := Expiry(seen, key, env.now(i));
    ReadInsertedKeeps(later, key, user, env.now(i), expiresAt);
    ExtendsTransitive(t, later, ReadInserted(later, key, user, env.now(i), expiresAt));
  }

  lemma UnservedKeeps(t: Tables, env: Env, i: nat, key: Key, user: User)
    requires Lawful(env) && TablesOk(t) && !Served(env, i)
    ensures TablesOk(Recorded(t, env, i, key, user)) && Extends(t, Recorded(t, env, i, key, user))
  {
    BothKeep(t, env, 2 * i + 1);
  }

  lemma RecordedKeeps(t: Tables, env: Env, i: nat, key: Key, user: User)
    requires Lawful(env) && TablesOk(t) && FromOther(t, key, user)
    ensures TablesOk(Recorded(t, env, i, key, user)) && Extends(t, Recorded(t, env, i, key, user))
    ensures Served(env, i) ==> (key, user) in Recorded(t, env, i, key, user).readRows
  {
    if Served(env, i) {
      ServedKeeps(t, env, i, key, user);
    } else {
      UnservedKeeps(t, env, i, key, user);
    }
  }

  lemma TurnKeeps(fetched: Tables, t: Tables, env: Env, i: nat, key: Key, user: User)
    requires Lawful(env) && TablesOk(t) && Extends(fetched, t)
    ensures TablesOk(Turn(fetched, t, env, i, key, user)) && Extends(fetched, Turn(fetched, t, env, i, key, user))
  {
    if FromOther(fetched, key, user) {
      RecordedKeeps(t, env, i, key, user);
      ExtendsTransitive(fetched, t, Recorded(t, env, i, key, user));
    }
  }

  /** A turn leaves the reads that are there alone, and adds its own unless a statement fails. */
  lemma TurnReads(fetched: Tables, t: Tables, env: Env, i: nat, key: Key, user: User, k: (Key, User))
    requires Lawful(env) && TablesOk(t) && Extends(fetched, t)
    ensures var t' := Turn(fetched, t, env, i, key, user);
            && (k in t.readRows ==> k in t'.readRows && ReadKept(t.readRows[k], t'.readRows[k]))
            && (FromOther(fetched, key, user) && Served(env, i) ==> (key, user) in t'.readRows)
  {
    if FromOther(fetched, key, user) {
      RecordedKeeps(t, env, i, key, user);
    }
  }

  lemma {:induction false} TurnsKeep(fetched: Tables, env: Env, conv: ConvId, user: User, page: seq<int>, n: nat)
    requires Lawful(env) && TablesOk(fetched) && n <= |page|
    ensures TablesOk(Turns(fetched, env, conv, user, page, n)) && Extends(fetched, Turns(fetched, env, conv, user, page, n))
  {
    if n == 0 {
      ExtendsItself(fetched);
    } else {
      TurnsKeep(fetched, env, conv, user, page, n - 1);
      TurnKeeps(fetched, Turns(fetched, env, conv, user, page, n - 1), env, n - 1, (conv, page[n - 1]), user);
    }
  }

  lemma TurnsRead(fetched: Tables, env: Env, conv: ConvId, user: User, page: seq<int>, i: nat, k: (Key, User))
    requires Lawful(env) && TablesOk(fetched) && i < |page|
    ensures var (t, t') := (Turns(fetched, env, conv, user, page, i), Turns(fetched, env, conv, user, page, i + 1));
            && (k in t.readRows ==> k in t'.readRows && ReadKept(t.readRows[k], t'.readRows[k]))
            && (FromOther(fetched, (conv, page[i]), user) && Served(env, i) ==> ((conv, page[i]), user) in t'.readRows)
  {
    TurnsKeep(fetched, env, conv, user, page, i);
    TurnReads(fetched, Turns(fetched, env, conv, user, page, i), env, i, (conv, page[i]), user, k);
  }

  /**
   Whatever the others do, each message of the page that another user sent has a row in the end,
   unless a statement of its own turn failed.
   */
  lemma {:induction false} EveryReadIsRecorded(fetched: Tables, env: Env, conv: ConvId, user: User, page: seq<int>,
                                               n: nat, i: nat)
    requires Lawful(env) && TablesOk(fetched) && i < n <= |page|
    requires FromOther(fetched, (conv, page[i]), user) && Served(env, i)
    ensures ((conv, page[i]), user) in Turns(fetched, env, conv, user, page, n).readRows
  {
    TurnsRead(fetched, env, conv, user, page, n - 1, ((conv, page[i]), user));
    if i < n - 1 {
      EveryReadIsRecorded(fetched, env, conv, user, page, n - 1, i);
    }
  }

  /** And no read that was recorded before is changed. */
  lemma {:induction false} EarlierReadsStay(fetched: Tables, env: Env, conv: ConvId, user: User, page: seq<int>,
                                            n: nat, k: (Key, User))
    requires Lawful(env) && TablesOk(fetched) && n <= |page| && k in fetched.readRows
    ensures var t := Turns(fetched, env, conv, user, page, n);
            k in t.readRows && ReadKept(fetched.readRows[k], t.readRows[k])
  {
    if n > 0 {
      EarlierReadsStay(fetched, env, conv, user, page, n - 1, k);
      TurnsRead(fetched, env, conv, user, page, n - 1, k);
    }
  }

  ghost predicate Quiet(env: Env) {
    forall k, t :: At(t, env, k) == t
  }

  /** The i-th turn of the loop reads the message k.0 for the user k.1. */
  ghost predicate ReadByTurn(fetched: Tables, env: Env, conv: ConvId, user: User, page: seq<int>, i: nat, k: (Key, User)) {
    i < |page| && k == ((conv, page[i]), user) && FromOther(fetched, k.0, user) && Served(env, i)
  }

  function RowOf(fetched: Tables, env: Env, i: nat, key: Key): ReadRow
    requires key in fetched.messages
  {
    ReadRow(env.now(i), Expiry(fetched, key, env.now(i)), false)
  }

  /** Left alone, the table has exactly these rows more, each as its own turn of the loop wrote it. */
  lemma {:induction false} ReadsExactly(fetched: Tables, env: Env, conv: ConvId, user: User, page: seq<int>,
                                        n: nat, k: (Key, User))
    requires Quiet(env) && n <= |page|
    ensures var t := Turns(fetched, env, conv, user, page, n);
            && t == fetched.(readRows := t.readRows)
            && (k in fetched.readRows ==> k in t.readRows && t.readRows[k] == fetched.readRows[k])
            && (k !in fetched.readRows ==>
                  && (k in t.readRows <==> exists i: nat :: i < n && ReadByTurn(fetched, env, conv, user, page, i, k))
                  && (k in t.readRows ==> exists i: nat :: i < n && ReadByTurn(fetched, env, conv, user, page, i, k)
                                                         && t.readRows[k] == RowOf(fetched, env, i, k.0)))
  {
    if n > 0 {
      var t := Turns(fetched, env, conv, user, page, n - 1);
      ReadsExactly(fetched, env, conv, user, page, n - 1, k);
      TurnWrites(fetched, t, env, conv, user, page, n - 1, k);
    }
  }

  lemma TurnWrites(fetched: Tables, t: Tables, env: Env, conv: ConvId, user: User, page: seq<int>, i: nat, k: (Key, User))
    requires Quiet(env) && i < |page| && t == fetched.(readRows := t.readRows)
    ensures var t' := Turn(fetched, t, env, i, (conv, page[i]), user);
            && t' == fetched.(readRows := t'.readRows)
            && (k in t'.readRows <==> k in t.readRows || ReadByTurn(fetched, env, conv, user, page, i, k))
            && (k in t.readRows ==> t'.readRows[k] == t.readRows[k])
            && (k !in t.readRows && k in t'.readRows ==> t'.readRows[k] == RowOf(fetched, env, i, k.0))
  {
  }

  // ---------------------------------------------------------------- from the read to the expiry

  lemma OneTurn(page: seq<int>, i: nat, j: nat)
    requires Descending(page) && i < |page| && j < |page| && page[i] == page[j]
    ensures i == j
  {
    if i < j {
      DescendingPair(page, i, j);
    } else if j < i {
      DescendingPair(page, j, i);
    }
  }

  /**
   When the read of a message makes it disappear, counted in nanoseconds from that read: after the
   TTL of a view-once message, whatever the conversation's; otherwise after the conversation's;
   never if there is neither.
   */
  lemma ReadExpiry(fetched: Tables, env: Env, conv: ConvId, user: User, page: seq<int>, i: nat)
    requires Quiet(env) && Descending(page) && i < |page|
    requires FromOther(fetched, (conv, page[i]), user) && Served(env, i) && ((conv, page[i]), user) !in fetched.readRows
    ensures var (m, rows) := (fetched.messages[(conv, page[i])], Turns(fetched, env, conv, user, page, |page|).readRows);
            && ((conv, page[i]), user) in rows
            && var row := rows[((conv, page[i]), user)];
               && row.readAt == env.now(i) && !row.expired
               && (m.viewOnce && m.viewOnceTTL.Some? ==>
                     row.expiresAt == Some(row.readAt + m.viewOnceTTL.value * 1_000_000_000))
               && (!(m.viewOnce && m.viewOnceTTL.Some?) && conv in fetched.convs && fetched.convs[conv].ttl.Some? ==>
                     row.expiresAt == Some(row.readAt + fetched.convs[conv].ttl.value * 1_000_000_000))
               && (!(m.viewOnce && m.viewOnceTTL.Some?) && (conv !in fetched.convs || fetched.convs[conv].ttl.None?) ==>
                     row.expiresAt == None)
  {
    var k := ((conv, page[i]), user);
    var t := Turns(fetched, env, conv, user, page, |page|);
    ReadsExactly(fetched, env, conv, user, page, |page|, k);
    assert ReadByTurn(fetched, env, conv, user, page, i, k);
    var j: nat :| j < |page| && ReadByTurn(fetched, env, conv, user, page, j, k) && t.readRows[k] == RowOf(fetched, env, j, k.0);
    OneTurn(page, i, j);
  }

  /** Some sweep among the changes came at or after that moment. */
  ghost predicate SweptAt(changes: seq<Change>, at: Option<Time>) {
    exists i :: 0 <= i < |changes| && changes[i].Sweep? && at.Some? && at.value <= changes[i].now
  }

  lemma SweptAtSnoc(init: seq<Change>, c: Change, at: Option<Time>)
    ensures SweptAt(init + [c], at) <==> SweptAt(init, at) || (c.Sweep? && at.Some? && at.value <= c.now)
  {
    var all := init + [c];
    assert all[|init|] == c && forall i :: 0 <= i < |init| ==> all[i] == init[i];
  }

  /** What may happen to a read row: a sweep that finds it due expires it, nothing else changes it. */
  lemma {:induction false} RowAfter(t: Tables, changes: seq<Change>, k: (Key, User))
    requires k in t.readRows
    ensures var rows := Changed(t, changes).readRows;
            && k in rows && rows[k].readAt == t.readRows[k].readAt && rows[k].expiresAt == t.readRows[k].expiresAt
            && (rows[k].expired <==> t.readRows[k].expired || SweptAt(changes, t.readRows[k].expiresAt))
  {
    if changes != [] {
      var init, last := changes[..|changes| - 1], changes[|changes| - 1];
      assert changes == init + [last];
      RowAfter(t, init, k);
      SweptAtSnoc(init, last, t.readRows[k].expiresAt);
    }
  }

  /**
   Once read, a message with a TTL is on no page of the reader after a sweep at or after the moment
   its read set, and up to then no sweep expires it.
   */
  lemma ReadThenGone(fetched: Tables, env: Env, conv: ConvId, user: User, page: seq<int>, i: nat, ttl: int, changes: seq<Change>)
    requires Quiet(env) && Descending(page) && i < |page|
    requires FromOther(fetched, (conv, page[i]), user) && Served(env, i) && ((conv, page[i]), user) !in fetched.readRows
    requires var m := fetched.messages[(conv, page[i])];
             if m.viewOnce && m.viewOnceTTL.Some? then m.viewOnceTTL == Some(ttl)
             else conv in fetched.convs && fetched.convs[conv].ttl == Some(ttl)
    ensures var (now, key) := (Changed(Turns(fetched, env, conv, user, page, |page|), changes), (conv, page[i]));
            && (key, user) in now.readRows
            && (now.readRows[(key, user)].expired <==> SweptAt(changes, Some(env.now(i) + ttl * 1_000_000_000)))
            && (now.readRows[(key, user)].expired ==>
                  forall before, clear, limit, later ::
                    IsPage(now, conv, user, before, clear, limit, later) ==> page[i] !in later)
  {
    var t, k := Turns(fetched, env, conv, user, page, |page|), ((conv, page[i]), user);
    ReadExpiry(fetched, env, conv, user, page, i);
    RowAfter(t, changes, k);
    var now := Changed(t, changes);
    forall before, clear, limit, later | now.readRows[k].expired && IsPage(now, conv, user, before, clear, limit, later)
      ensures page[i] !in later
    {
      PageByColumns(now, conv, user, before, clear, limit, later, page[i]);
    }
  }

  // ---------------------------------------------------------------- a long conversation

  /** The page holds at most 50 of more than 100 messages, so the read of some of them is not recorded. */
  lemma OldMessagesStayUnread(conv: ConvId, m: Message, user: User, n: nat, env: Env, page: seq<int>)
    requires n > 100 && m.from != user && Quiet(env)
    requires IsPage(State(Sends(conv, m, n)), conv, user, n + 1, 0, Clamp(n), page)
    ensures exists k :: 1 <= k <= n && FromOther(State(Sends(conv, m, n)), (conv, k), user)
                     && ((conv, k), user) !in Turns(State(Sends(conv, m, n)), env, conv, user, page, |page|).readRows
  {
    var t := State(Sends(conv, m, n));
    LongHistoryIsCut(conv, m, user, n, page);
    SendsState(conv, m, n);
    var k :| 1 <= k <= n && Selected(t, conv, user, 0, 0, k) && k !in page;
    ReadsExactly(t, env, conv, user, page, |page|, ((conv, k), user));
    assert forall i: nat :: i < |page| ==> page[i] in page;
    assert FromOther(t, (conv, k), user);
  }
}
