/**
 The message tables read off the history of what was done to them.  Nothing here looks at how a
 statement works: a row is what was sent, with the writes to it; a deletion, a read, an expiry
 each have the change that made them.
 */
module MessageLog {
  import opened Prelude
  import opened Heads
  import opened Messages
  import opened RowRace
  import opened MessageRuns

  /** The messages that a conversation has taken, in order. */
  function SentTo(changes: seq<Change>, conv: ConvId): seq<Message> {
    if changes == [] then []
    else
      var init, last := changes[..|changes| - 1], changes[|changes| - 1];
      if last.Send? && last.conv == conv && NewConv(conv) in init then SentTo(init, conv) + [last.m] else SentTo(init, conv)
  }

  predicate IsSent(changes: seq<Change>, key: Key) {
    1 <= key.1 <= |SentTo(changes, key.0)|
  }

  /** The writes to a message since it was sent. */
  function WritesTo(changes: seq<Change>, key: Key): seq<RowRace.Write> {
    if changes == [] then []
    else
      var init, last := changes[..|changes| - 1], changes[|changes| - 1];
      if last.Write? && last.key == key && IsSent(init, key) then WritesTo(init, key) + [last.w] else WritesTo(init, key)
  }

  /** The TTL set last since the conversation was made. */
  function TtlOf(changes: seq<Change>, conv: ConvId): Option<int> {
    if changes == [] then None
    else
      var init, last := changes[..|changes| - 1], changes[|changes| - 1];
      if last.SetTtl? && last.conv == conv && NewConv(conv) in init then last.ttl else TtlOf(init, conv)
  }

  ghost predicate DeletedIn(changes: seq<Change>, key: Key, user: User) {
    exists i :: 0 <= i < |changes| && changes[i] == DeleteForUser(key, user) && IsSent(changes[..i], key)
  }

  /** When the user first read the message, as somebody other than its sender, and the expiry recorded then. */
  function FirstRead(changes: seq<Change>, key: Key, user: User): Option<(Time, Option<Time>)> {
    if changes == [] then None
    else
      var init, last := changes[..|changes| - 1], changes[|changes| - 1];
      if FirstRead(init, key, user).Some? then FirstRead(init, key, user)
      else if last.RecordRead? && last.key == key && last.user == user
              && IsSent(init, key) && SentTo(init, key.0)[key.1 - 1].from != user
      then Some((last.now, last.expiresAt))
      else None
  }

  /** A sweep came at or after the expiry of a read recorded before it. */
  ghost predicate SweptIn(changes: seq<Change>, key: Key, user: User) {
    exists i :: 0 <= i < |changes| && changes[i].Sweep? && IsOver(FirstRead(changes[..i], key, user), changes[i].now)
  }

  predicate IsOver(read: Option<(Time, Option<Time>)>, now: Time) {
    read.Some? && read.value.1.Some? && read.value.1.value <= now
  }

  // ---------------------------------------------------------------- conversations and messages

  ghost predicate ConvsTell(changes: seq<Change>, t: Tables, conv: ConvId) {
    && (conv in t.convs <==> NewConv(conv) in changes)
    && (conv in t.convs ==> t.convs[conv].lastSeq == |SentTo(changes, conv)| && t.convs[conv].ttl == TtlOf(changes, conv))
    && (conv !in t.convs ==> SentTo(changes, conv) == [] && TtlOf(changes, conv) == None)
  }

  lemma ConvsStep(init: seq<Change>, t: Tables, c: Change, conv: ConvId)
    requires ConvsTell(init, t, conv) && SeqsOk(t)
    ensures ConvsTell(init + [c], Apply(t, c), conv)
  {
    assert (init + [c])[..|init|] == init;
    if c.Send? && c.conv in t.convs {
      SendSucceeds(t, c.conv, c.m);
    }
  }

  /** A conversation's last number is how many messages it has taken, its TTL the one set last. */
  lemma {:induction false} ConvsToldBy(changes: seq<Change>, conv: ConvId)
    ensures ConvsTell(changes, State(changes), conv)
  {
    if changes != [] {
      var init, last := changes[..|changes| - 1], changes[|changes| - 1];
      ConvsToldBy(init, conv);
      Reachable(init);
      ConvsStep(init, State(init), last, conv);
      assert changes == init + [last];
    }
  }

  lemma SentSnoc(init: seq<Change>, c: Change, conv: ConvId)
    ensures SentTo(init + [c], conv)
         == if c.Send? && c.conv == conv && NewConv(conv) in init then SentTo(init, conv) + [c.m] else SentTo(init, conv)
  {
    assert (init + [c])[..|init|] == init;
  }

  lemma IsSentStays(init: seq<Change>, c: Change, key: Key)
    ensures IsSent(init, key) ==>
              IsSent(init + [c], key) && SentTo(init + [c], key.0)[key.1 - 1] == SentTo(init, key.0)[key.1 - 1]
  {
    SentSnoc(init, c, key.0);
  }

  lemma {:induction false} NoWritesBefore(changes: seq<Change>, key: Key)
    requires !IsSent(changes, key)
    ensures WritesTo(changes, key) == []
  {
    if changes != [] {
      var init, last := changes[..|changes| - 1], changes[|changes| - 1];
      assert changes == init + [last];
      IsSentStays(init, last, key);
      NoWritesBefore(init, key);
    }
  }

  /** The row of a message is the one that was sent, with the writes to it in their order. */
  ghost predicate RowTells(changes: seq<Change>, t: Tables, key: Key) {
    && (key in t.messages <==> IsSent(changes, key))
    && (key in t.messages ==> t.messages[key] == Replay(SentTo(changes, key.0)[key.1 - 1], WritesTo(changes, key)))
  }

  lemma WritesSnoc(init: seq<Change>, c: Change, key: Key)
    ensures WritesTo(init + [c], key)
         == if c.Write? && c.key == key && IsSent(init, key) then WritesTo(init, key) + [c.w] else WritesTo(init, key)
  {
    assert (init + [c])[..|init|] == init;
  }

  lemma ReplaySnoc(row: Message, writes: seq<RowRace.Write>, w: RowRace.Write)
    ensures Replay(row, writes + [w]) == Applied(Replay(row, writes), w)
  {
    assert (writes + [w])[..|writes|] == writes;
  }

  lemma SendTells(init: seq<Change>, t: Tables, conv: ConvId, m: Message, key: Key)
    requires RowTells(init, t, key) && ConvsTell(init, t, conv) && SeqsOk(t)
    ensures RowTells(init + [Send(conv, m)], Apply(t, Send(conv, m)), key)
  {
    var c := Send(conv, m);
    SentSnoc(init, c, key.0);
    WritesSnoc(init, c, key);
    if conv in t.convs {
      SendSucceeds(t, conv, m);
      if key == (conv, t.convs[conv].lastSeq + 1) {
        NoWritesBefore(init, key);
      }
    }
  }

  lemma WriteTells(init: seq<Change>, t: Tables, at: Key, w: RowRace.Write, key: Key)
    requires RowTells(init, t, key)
    ensures RowTells(init + [Change.Write(at, w)], Apply(t, Change.Write(at, w)), key)
  {
    var c := Change.Write(at, w);
    SentSnoc(init, c, key.0);
    WritesSnoc(init, c, key);
    if IsSent(init, key) {
      ReplaySnoc(SentTo(init, key.0)[key.1 - 1], WritesTo(init, key), w);
    }
  }

  lemma OtherTells(init: seq<Change>, t: Tables, c: Change, key: Key)
    requires RowTells(init, t, key) && !c.Send? && !c.Write?
    ensures RowTells(init + [c], Apply(t, c), key)
  {
    SentSnoc(init, c, key.0);
    WritesSnoc(init, c, key);
  }

  /** Every row is the message that was sent under its number, with the writes to it since, and there are no other rows. */
  lemma {:induction false} RowsToldBy(changes: seq<Change>, key: Key)
    ensures RowTells(changes, State(changes), key)
  {
    if changes != [] {
      var init, last := changes[..|changes| - 1], changes[|changes| - 1];
      assert changes == init + [last];
      RowsToldBy(init, key);
      match last
      case Send(conv, m) =>
        Reachable(init);
        ConvsToldBy(init, conv);
        SendTells(init, State(init), conv, m, key);
      case Write(at, w) => WriteTells(init, State(init), at, w, key);
      case _ => OtherTells(init, State(init), last, key);
    }
  }

  // ---------------------------------------------------------------- deletions, reads and expiry

  lemma DeletedSnoc(init: seq<Change>, c: Change, key: Key, user: User)
    ensures DeletedIn(init + [c], key, user)
       <==> DeletedIn(init, key, user) || (c == DeleteForUser(key, user) && IsSent(init, key))
  {
    var all := init + [c];
    assert all[..|init|] == init && all[|init|] == c;
    if i :| 0 <= i < |init| && init[i] == DeleteForUser(key, user) && IsSent(init[..i], key) {
      assert all[i] == init[i] && all[..i] == init[..i];
    }
    if i :| 0 <= i < |all| && all[i] == DeleteForUser(key, user) && IsSent(all[..i], key) {
      assert i < |init| ==> init[i] == all[i] && all[..i] == init[..i];
    }
  }

  /** A message is deleted for a user if and only if they deleted it after it was sent. */
  lemma {:induction false} DeletionsToldBy(changes: seq<Change>, key: Key, user: User)
    ensures (key, user) in State(changes).deletions <==> DeletedIn(changes, key, user)
  {
    if changes != [] {
      var init, last := changes[..|changes| - 1], changes[|changes| - 1];
      assert changes == init + [last];
      DeletionsToldBy(init, key, user);
      RowsToldBy(init, key);
      DeletedSnoc(init, last, key, user);
    }
  }

  /** A read row holds the first read, and is expired once a sweep has found it due. */
  ghost predicate ReadTells(changes: seq<Change>, t: Tables, key: Key, user: User) {
    var k, read := (key, user), FirstRead(changes, key, user);
    && (k in t.readRows <==> read.Some?)
    && (k in t.readRows ==>
          && t.readRows[k].readAt == read.value.0 && t.readRows[k].expiresAt == read.value.1
          && (t.readRows[k].expired <==> SweptIn(changes, key, user)))
  }

  lemma SweptSnoc(init: seq<Change>, c: Change, key: Key, user: User)
    ensures SweptIn(init + [c], key, user)
       <==> SweptIn(init, key, user) || (c.Sweep? && IsOver(FirstRead(init, key, user), c.now))
  {
    var all := init + [c];
    assert all[..|init|] == init && all[|init|] == c;
    if i :| 0 <= i < |init| && init[i].Sweep? && IsOver(FirstRead(init[..i], key, user), init[i].now) {
      assert all[i] == init[i] && all[..i] == init[..i];
    }
    if i :| 0 <= i < |all| && all[i].Sweep? && IsOver(FirstRead(all[..i], key, user), all[i].now) {
      assert i < |init| ==> init[i] == all[i] && all[..i] == init[..i];
    }
  }

  lemma {:induction false} NotReadNotSwept(changes: seq<Change>, key: Key, user: User)
    requires FirstRead(changes, key, user) == None
    ensures !SweptIn(changes, key, user)
  {
    if changes != [] {
      var init, last := changes[..|changes| - 1], changes[|changes| - 1];
      assert changes == init + [last];
      NotReadNotSwept(init, key, user);
      SweptSnoc(init, last, key, user);
    }
  }

  lemma {:induction false} SentByIsFrom(row: Message, writes: seq<RowRace.Write>)
    ensures Replay(row, writes).from == row.from
  {
    if writes != [] {
      SentByIsFrom(row, writes[..|writes| - 1]);
    }
  }

  lemma RecordStep(init: seq<Change>, t: Tables, c: Change, key: Key, user: User)
    requires ReadTells(init, t, key, user) && RowTells(init, t, key) && c.RecordRead?
    ensures ReadTells(init + [c], Apply(t, c), key, user)
  {
    assert (init + [c])[..|init|] == init;
    SweptSnoc(init, c, key, user);
    if IsSent(init, key) {
      SentByIsFrom(SentTo(init, key.0)[key.1 - 1], WritesTo(init, key));
    }
    if FirstRead(init, key, user) == None {
      NotReadNotSwept(init, key, user);
    }
  }

  lemma SweepStep(init: seq<Change>, t: Tables, c: Change, key: Key, user: User)
    requires ReadTells(init, t, key, user) && c.Sweep?
    ensures ReadTells(init + [c], Apply(t, c), key, user)
  {
    assert (init + [c])[..|init|] == init;
    SweptSnoc(init, c, key, user);
  }

  lemma OtherStep(init: seq<Change>, t: Tables, c: Change, key: Key, user: User)
    requires ReadTells(init, t, key, user) && !c.RecordRead? && !c.Sweep?
    ensures ReadTells(init + [c], Apply(t, c), key, user)
  {
    assert (init + [c])[..|init|] == init;
    SweptSnoc(init, c, key, user);
    assert Apply(t, c).readRows == t.readRows;
  }

  /** Every read row is told by the history: the first read fixes it, a sweep at or after its expiry ends it. */
  lemma {:induction false} ReadsToldBy(changes: seq<Change>, key: Key, user: User)
    ensures ReadTells(changes, State(changes), key, user)
  {
    if changes != [] {
      var init, last := changes[..|changes| - 1], changes[|changes| - 1];
      assert changes == init + [last];
      ReadsToldBy(init, key, user);
      RowsToldBy(init, key);
      if last.RecordRead? {
        RecordStep(init, State(init), last, key, user);
      } else if last.Sweep? {
        SweepStep(init, State(init), last, key, user);
      } else {
        OtherStep(init, State(init), last, key, user);
      }
    }
  }

  // ---------------------------------------------------------------- pages

  /** The history shows the message to the user: it was sent, not deleted for them, not swept after their read. */
  ghost predicate Shown(changes: seq<Change>, key: Key, user: User) {
    IsSent(changes, key) && !DeletedIn(changes, key, user) && !SweptIn(changes, key, user)
  }

  lemma NotExpiredIffNotSwept(changes: seq<Change>, key: Key, user: User)
    ensures ((key, user) in State(changes).readRows ==> !State(changes).readRows[(key, user)].expired)
       <==> !SweptIn(changes, key, user)
  {
    ReadsToldBy(changes, key, user);
    if FirstRead(changes, key, user) == None {
      NotReadNotSwept(changes, key, user);
    }
  }

  /**
   What a page holds is told by the history alone: messages after clear_seq and before the
   cursor that it shows to the user, and all of these that are not older than a full page.
   */
  lemma PagesToldBy(changes: seq<Change>, conv: ConvId, user: User, before: int, clear: int, limit: nat, page: seq<int>, n: int)
    requires IsPage(State(changes), conv, user, before, clear, limit, page)
    ensures n in page ==> clear < n && (before > 0 ==> n < before) && Shown(changes, (conv, n), user)
    ensures n !in page && clear < n && (before > 0 ==> n < before) && Shown(changes, (conv, n), user)
            ==> |page| == limit && forall k :: k in page ==> n < k
  {
    PageByColumns(State(changes), conv, user, before, clear, limit, page, n);
    RowsToldBy(changes, (conv, n));
    DeletionsToldBy(changes, (conv, n), user);
    NotExpiredIffNotSwept(changes, (conv, n), user);
  }
}
