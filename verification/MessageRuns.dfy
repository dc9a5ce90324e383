/**
 Runs of the message tables: any order of sends, row writes, deletions for one user, recorded
 reads and expiry sweeps, over all conversations.
 */
module MessageRuns {
  import opened Prelude
  import opened Heads
  import opened Messages
  import opened RowRace

  datatype Change =
    | NewConv(conv: ConvId)
    | SetTtl(conv: ConvId, ttl: Option<int>)
    | Send(conv: ConvId, m: Message)
    | Write(key: Key, w: RowRace.Write)
    | DeleteForUser(key: Key, user: User)
    // `expiresAt` comes from an earlier SELECT, so any value is possible by now
    | RecordRead(key: Key, user: User, now: Time, expiresAt: Option<Time>)
    | Sweep(now: Time)

  function Apply(t: Tables, c: Change): Tables {
    match c
    case NewConv(conv) => if conv in t.convs then t else t.(convs := t.convs[conv := ConvRow(0, None)])
    case SetTtl(conv, ttl) => if conv in t.convs then t.(convs := t.convs[conv := t.convs[conv].(ttl := ttl)]) else t
    case Send(conv, m) => (match Created(t, conv, m) case Some(t') => t' case None => t)
    case Write(key, w) => if key in t.messages then WithRow(t, key, Applied(t.messages[key], w)) else t
    case DeleteForUser(key, user) => DeletedFor(t, key, user)
    case RecordRead(key, user, now, expiresAt) =>
      if key in t.messages && t.messages[key].from != user then ReadInserted(t, key, user, now, expiresAt) else t
    case Sweep(now) => Expired(t, now)
  }

  function State(changes: seq<Change>): Tables {
    if changes == [] then Tables(map[], map[], {}, map[])
    else Apply(State(changes[..|changes| - 1]), changes[|changes| - 1])
  }

  // ---------------------------------------------------------------- what every change keeps

  /** No read row belongs to the sender of its message. */
  ghost predicate OwnUnread(t: Tables) {
    forall k :: k in t.readRows ==> k.0 in t.messages && t.messages[k.0].from != k.1
  }

  ghost predicate TablesOk(t: Tables) {
    SeqsOk(t) && OwnUnread(t)
  }

  ghost predicate ReadKept(row: ReadRow, row': ReadRow) {
    row'.readAt == row.readAt && row'.expiresAt == row.expiresAt && (row.expired ==> row'.expired)
  }

  /** Numbers, senders, deletions and first reads are never taken back. */
  ghost predicate Extends(t: Tables, t': Tables) {
    && (forall conv :: conv in t.convs ==> conv in t'.convs && t.convs[conv].lastSeq <= t'.convs[conv].lastSeq)
    && (forall key :: key in t.messages ==> key in t'.messages && t'.messages[key].from == t.messages[key].from)
    && t.deletions <= t'.deletions
    && (forall k :: k in t.readRows ==> k in t'.readRows && ReadKept(t.readRows[k], t'.readRows[k]))
  }

  lemma ExtendsItself(t: Tables)
    ensures Extends(t, t)
  {
  }

  /** In a reachable state the next number is always free, so a send never fails on it. */
  lemma SendSucceeds(t: Tables, conv: ConvId, m: Message)
    requires SeqsOk(t) && conv in t.convs
    ensures Created(t, conv, m).Some? && SeqsOk(Created(t, conv, m).value)
  {
    var next := t.convs[conv].lastSeq + 1;
    assert !Numbered(t, (conv, next));
    var t' := Created(t, conv, m).value;
    forall key ensures key in t'.messages <==> Numbered(t', key) {
      assert key in t.messages <==> Numbered(t, key);
    }
  }

  lemma SeqsUnchanged(t: Tables, t': Tables)
    requires SeqsOk(t) && t'.messages.Keys == t.messages.Keys && t'.convs.Keys == t.convs.Keys
    requires forall conv :: conv in t.convs ==> t'.convs[conv].lastSeq == t.convs[conv].lastSeq
    ensures SeqsOk(t')
  {
    forall key ensures key in t'.messages <==> Numbered(t', key) {
      assert key in t.messages <==> Numbered(t, key);
    }
  }

  lemma SendKeeps(t: Tables, conv: ConvId, m: Message)
    requires TablesOk(t)
    ensures TablesOk(Apply(t, Send(conv, m))) && Extends(t, Apply(t, Send(conv, m)))
  {
    if conv in t.convs {
      SendSucceeds(t, conv, m);
    }
  }

  lemma NewConvKeeps(t: Tables, conv: ConvId)
    requires TablesOk(t)
    ensures TablesOk(Apply(t, NewConv(conv))) && Extends(t, Apply(t, NewConv(conv)))
  {
    var t' := Apply(t, NewConv(conv));
    forall key ensures key in t'.messages <==> Numbered(t', key) {
      assert key in t.messages <==> Numbered(t, key);
    }
  }

  lemma RowKeeps(t: Tables, key: Key, row: Message)
    requires TablesOk(t) && key in t.messages && row.from == t.messages[key].from
    ensures TablesOk(WithRow(t, key, row)) && Extends(t, WithRow(t, key, row))
  {
    SeqsUnchanged(t, WithRow(t, key, row));
  }

  lemma WriteKeeps(t: Tables, key: Key, w: RowRace.Write)
    requires TablesOk(t)
    ensures TablesOk(Apply(t, Write(key, w))) && Extends(t, Apply(t, Write(key, w)))
  {
    if key in t.messages {
      RowKeeps(t, key, Applied(t.messages[key], w));
    } else {
      ExtendsItself(t);
    }
  }

  lemma ReadInsertedKeeps(t: Tables, key: Key, user: User, now: Time, expiresAt: Option<Time>)
    requires TablesOk(t) && key in t.messages && t.messages[key].from != user
    ensures TablesOk(ReadInserted(t, key, user, now, expiresAt)) && Extends(t, ReadInserted(t, key, user, now, expiresAt))
  {
    var t' := ReadInserted(t, key, user, now, expiresAt);
    SeqsUnchanged(t, t');
    assert t'.messages == t.messages;
    assert OwnUnread(t');
  }

  lemma RecordReadKeeps(t: Tables, key: Key, user: User, now: Time, expiresAt: Option<Time>)
    requires TablesOk(t)
    ensures TablesOk(Apply(t, RecordRead(key, user, now, expiresAt)))
    ensures Extends(t, Apply(t, RecordRead(key, user, now, expiresAt)))
  {
    if key in t.messages && t.messages[key].from != user {
      ReadInsertedKeeps(t, key, user, now, expiresAt);
    } else {
      ExtendsItself(t);
    }
  }

  lemma SweepKeeps(t: Tables, now: Time)
    requires TablesOk(t)
    ensures TablesOk(Apply(t, Sweep(now))) && Extends(t, Apply(t, Sweep(now)))
  {
    SeqsUnchanged(t, Apply(t, Sweep(now)));
  }

  lemma ApplyKeeps(t: Tables, c: Change)
    requires TablesOk(t)
    ensures TablesOk(Apply(t, c)) && Extends(t, Apply(t, c))
  {
    match c
    case NewConv(conv) => NewConvKeeps(t, conv);
    case Send(conv, m) => SendKeeps(t, conv, m);
    case Write(key, w) => WriteKeeps(t, key, w);
    case RecordRead(key, user, now, expiresAt) => RecordReadKeeps(t, key, user, now, expiresAt);
    case Sweep(now) => SweepKeeps(t, now);
    case SetTtl(_, _) => SeqsUnchanged(t, Apply(t, c));
    case DeleteForUser(_, _) => SeqsUnchanged(t, Apply(t, c));
  }

  lemma {:induction false} Reachable(changes: seq<Change>)
    ensures TablesOk(State(changes))
  {
    if changes != [] {
      Reachable(changes[..|changes| - 1]);
      ApplyKeeps(State(changes[..|changes| - 1]), changes[|changes| - 1]);
    } else {
      assert forall key :: !Numbered(State(changes), key);
    }
  }

  lemma {:induction false} LaterExtends(changes: seq<Change>, i: nat)
    requires i <= |changes|
    ensures Extends(State(changes[..i]), State(changes))
  {
    if i == |changes| {
      assert changes[..i] == changes;
    } else {
      var init := changes[..|changes| - 1];
      assert init[..i] == changes[..i];
      LaterExtends(init, i);
      Reachable(init);
      ApplyKeeps(State(init), changes[|changes| - 1]);
      ExtendsTransitive(State(changes[..i]), State(init), State(changes));
    }
  }

  lemma ExtendsTransitive(a: Tables, b: Tables, c: Tables)
    requires Extends(a, b) && Extends(b, c)
    ensures Extends(a, c)
  {
  }

  // ---------------------------------------------------------------- deletions, reads and expiry

  lemma HiddenStays(changes: seq<Change>, i: nat, key: Key, user: User)
    requires i <= |changes| && Hidden(State(changes[..i]), key, user)
    ensures Hidden(State(changes), key, user)
  {
    LaterExtends(changes, i);
    var t, t' := State(changes[..i]), State(changes);
    assert (key, user) in t.deletions ==> (key, user) in t'.deletions;
  }

  /** A message deleted for a user, or expired for them, is in no later page of theirs. */
  lemma HiddenForGood(changes: seq<Change>, i: nat, user: User, conv: ConvId, n: int,
                      before: int, clear: int, limit: nat, page: seq<int>)
    requires i <= |changes| && Hidden(State(changes[..i]), (conv, n), user)
    requires IsPage(State(changes), conv, user, before, clear, limit, page)
    ensures n !in page
  {
    HiddenStays(changes, i, (conv, n), user);
    assert !Selected(State(changes), conv, user, before, clear, n);
  }

  /** The first recorded read fixes the expiry; later reads and TTL changes do not move it. */
  lemma FirstReadWins(changes: seq<Change>, i: nat, k: (Key, User))
    requires i <= |changes| && k in State(changes[..i]).readRows
    ensures k in State(changes).readRows
    ensures State(changes).readRows[k].readAt == State(changes[..i]).readRows[k].readAt
    ensures State(changes).readRows[k].expiresAt == State(changes[..i]).readRows[k].expiresAt
  {
    LaterExtends(changes, i);
  }

  /** A row expires only in a sweep at or after its expiry time. */
  lemma {:induction false} ExpiredWasDue(changes: seq<Change>, k: (Key, User))
    requires k in State(changes).readRows && State(changes).readRows[k].expired
    ensures exists i :: 0 <= i < |changes| && changes[i].Sweep? && Due(State(changes).readRows[k], changes[i].now)
  {
    var init, last := changes[..|changes| - 1], changes[|changes| - 1];
    if k in State(init).readRows && State(init).readRows[k].expired {
      ExpiredWasDue(init, k);
      LaterExtends(changes, |init|);
      var i :| 0 <= i < |init| && init[i].Sweep? && Due(State(init).readRows[k], init[i].now);
      assert changes[i] == init[i];
    } else {
      assert last.Sweep?;
    }
  }

  /** The sender never gets a read row, so a message never expires for its own sender. */
  lemma OwnMessageStays(changes: seq<Change>, key: Key)
    requires key in State(changes).messages && (key, State(changes).messages[key].from) !in State(changes).deletions
    ensures !Hidden(State(changes), key, State(changes).messages[key].from)
  {
    Reachable(changes);
  }

  // ---------------------------------------------------------------- how far handleRead reaches

  function Unhidden(t: Tables, conv: ConvId, user: User, upTo: nat): (r: nat)
    ensures r <= upTo
  {
    if upTo == 0 then 0
    else Unhidden(t, conv, user, upTo - 1) + if Selected(t, conv, user, 0, 0, upTo) then 1 else 0
  }

  lemma {:induction false} PageCount(t: Tables, conv: ConvId, user: User, upTo: nat, page: seq<int>)
    requires Descending(page)
    requires forall n :: n in page ==> 1 <= n <= upTo && Selected(t, conv, user, 0, 0, n)
    ensures |page| <= Unhidden(t, conv, user, upTo)
    ensures (forall n :: 1 <= n <= upTo && Selected(t, conv, user, 0, 0, n) ==> n in page)
       <==> |page| == Unhidden(t, conv, user, upTo)
    decreases upTo
  {
    assert page != [] ==> page[0] in page;
    if upTo > 0 {
      if page != [] {
        DescendingTail(page);
        assert page == [page[0]] + page[1..];
      }
      if page != [] && page[0] == upTo {
        forall n | n in page[1..] ensures n in page && n <= upTo - 1 {}
        PageCount(t, conv, user, upTo - 1, page[1..]);
      } else {
        forall n | n in page ensures n <= upTo - 1 {
          assert n == page[0] || n in page[1..];
        }
        PageCount(t, conv, user, upTo - 1, page);
      }
    }
  }

  lemma {:induction false} DescendingPair(page: seq<int>, i: nat, j: nat)
    requires Descending(page) && i < j < |page|
    ensures page[j] < page[i]
    decreases j
  {
    assert page[j - 1] > page[j - 1 + 1];
    if i < j - 1 {
      DescendingPair(page, i, j - 1);
    }
  }

  lemma DescendingTail(page: seq<int>)
    requires Descending(page) && page != []
    ensures Descending(page[1..]) && forall n :: n in page[1..] ==> n < page[0]
  {
    forall i | 0 <= i < |page[1..]| - 1 ensures page[1..][i] > page[1..][i + 1] {
      assert page[i + 1] > page[i + 1 + 1];
    }
    forall n | n in page[1..] ensures n < page[0] {
      var j :| 0 <= j < |page[1..]| && page[1..][j] == n;
      DescendingPair(page, 0, j + 1);
    }
  }

  /** The page handleRead works on holds every unhidden message up to `n` iff they fit the clamped limit. */
  lemma ReadCoverage(t: Tables, conv: ConvId, user: User, n: int, page: seq<int>)
    requires SeqsOk(t) && n > 0
    requires IsPage(t, conv, user, n + 1, 0, Clamp(n), page)
    ensures (forall k :: 1 <= k <= n && Selected(t, conv, user, 0, 0, k) ==> k in page)
       <==> Unhidden(t, conv, user, n) <= (if n <= 100 then n else 50)
    ensures n <= 100 ==> forall k :: 1 <= k <= n && Selected(t, conv, user, 0, 0, k) ==> k in page
  {
    forall k | k in page ensures 1 <= k <= n && Selected(t, conv, user, 0, 0, k) {
      assert Selected(t, conv, user, n + 1, 0, k);
    }
    PageCount(t, conv, user, n, page);
    if |page| < Clamp(n) {
      forall k | 1 <= k <= n && Selected(t, conv, user, 0, 0, k) ensures k in page {
        assert Selected(t, conv, user, n + 1, 0, k);
      }
    }
  }

  /** A new conversation with n messages from one sender. */
  function Sends(conv: ConvId, m: Message, n: nat): seq<Change> {
    if n == 0 then [NewConv(conv)] else Sends(conv, m, n - 1) + [Send(conv, m)]
  }

  lemma StateSnoc(changes: seq<Change>, c: Change)
    ensures State(changes + [c]) == Apply(State(changes), c)
  {
    assert (changes + [c])[..|changes|] == changes;
  }

  /** The state that they lead to. */
  ghost predicate Sent(t: Tables, conv: ConvId, m: Message, n: nat) {
    && t.convs == map[conv := ConvRow(n, None)] && t.deletions == {} && t.readRows == map[]
    && (forall k :: (conv, k) in t.messages <==> 1 <= k <= n)
    && (forall key :: key in t.messages ==> key.0 == conv && t.messages[key] == m)
  }

  lemma OneMoreSent(t: Tables, conv: ConvId, m: Message, n: nat)
    requires Sent(t, conv, m, n)
    ensures Sent(Apply(t, Send(conv, m)), conv, m, n + 1)
  {
    assert (conv, n + 1) !in t.messages;
  }

  lemma {:induction false} SendsState(conv: ConvId, m: Message, n: nat)
    ensures Sent(State(Sends(conv, m, n)), conv, m, n)
  {
    if n == 0 {
      StateSnoc([], NewConv(conv));
      assert [] + [NewConv(conv)] == [NewConv(conv)];
    } else {
      SendsState(conv, m, n - 1);
      StateSnoc(Sends(conv, m, n - 1), Send(conv, m));
      OneMoreSent(State(Sends(conv, m, n - 1)), conv, m, n - 1);
    }
  }

  lemma {:induction false} AllUnhidden(t: Tables, conv: ConvId, user: User, upTo: nat)
    requires forall n :: 1 <= n <= upTo ==> Selected(t, conv, user, 0, 0, n)
    ensures Unhidden(t, conv, user, upTo) == upTo
  {
    if upTo > 0 {
      AllUnhidden(t, conv, user, upTo - 1);
    }
  }

  /** More than a hundred messages that nothing hides: the page handleRead works on lacks one. */
  lemma LongHistoryIsCut(conv: ConvId, m: Message, user: User, n: nat, page: seq<int>)
    requires n > 100 && IsPage(State(Sends(conv, m, n)), conv, user, n + 1, 0, Clamp(n), page)
    ensures exists k :: 1 <= k <= n && Selected(State(Sends(conv, m, n)), conv, user, 0, 0, k) && k !in page
  {
    var t := State(Sends(conv, m, n));
    SendsState(conv, m, n);
    Reachable(Sends(conv, m, n));
    AllUnhidden(t, conv, user, n);
    ReadCoverage(t, conv, user, n, page);
  }
}
