/**
 The message tables of store/messages.go.  Each SQL statement or transaction is one function
 on `Tables`; `Store` performs them on its fields.  UNIQUE(conversation_id, seq) makes the
 pair a key, and it stands here for the message's own id as well.
 */
module Messages {
  import opened Prelude
  import opened Heads

  type ConvId = string
  type Key = (ConvId, int)
  type Content = seq<bv8>

  const SECOND: Time := 1_000_000_000

  datatype Message = Message(
    from: User, createdAt: Time, updatedAt: Time, content: Content, head: Option<Head>,
    deletedAt: Option<Time>, viewOnce: bool, viewOnceTTL: Option<int>)

  datatype ConvRow = ConvRow(lastSeq: int, ttl: Option<int>)
  datatype ReadRow = ReadRow(readAt: Time, expiresAt: Option<Time>, expired: bool)

  datatype Tables = Tables(
    convs: map<ConvId, ConvRow>,
    messages: map<Key, Message>,
    deletions: set<(Key, User)>,
    readRows: map<(Key, User), ReadRow>)

  // ---------------------------------------------------------------- statements on one row

  function RowEdited(m: Message, content: Content, now: Time): Message {
    if m.deletedAt.Some? then m
    else m.(content := content, updatedAt := now, head := Some(Edited(OrEmpty(m.head), now)))
  }

  function RowUnsent(m: Message, now: Time): Message {
    m.(deletedAt := Some(now), updatedAt := now, head := Some(MarkedUnsent(OrEmpty(m.head))))
  }

  function RowDeleted(m: Message, now: Time): Message {
    m.(deletedAt := Some(now), updatedAt := now)
  }

  function RowReacted(m: Message, user: User, emoji: Emoji, now: Time): Message {
    m.(updatedAt := now, head := Some(Reacted(OrEmpty(m.head), user, emoji)))
  }

  /** A jsonb value cannot hold the character NUL. */
  predicate Storable(emoji: Emoji) {
    '\0' !in emoji
  }

  // ---------------------------------------------------------------- statements on the tables

  /** The transaction of CreateMessage: it fails on an unknown conversation or a taken number. */
  function Created(t: Tables, conv: ConvId, m: Message): Option<Tables> {
    if conv !in t.convs then None
    else
      var next := t.convs[conv].lastSeq + 1;
      if (conv, next) in t.messages then None
      else Some(t.(convs := t.convs[conv := t.convs[conv].(lastSeq := next)], messages := t.messages[(conv, next) := m]))
  }

  function WithRow(t: Tables, key: Key, m: Message): Tables {
    t.(messages := t.messages[key := m])
  }

  function DeletedFor(t: Tables, key: Key, user: User): Tables {
    if key in t.messages then t.(deletions := t.deletions + {(key, user)}) else t
  }

  /** When a read at `now` makes the message disappear for the reader. */
  function Expiry(t: Tables, key: Key, now: Time): Option<Time>
    requires key in t.messages
  {
    var m := t.messages[key];
    if m.viewOnce && m.viewOnceTTL.Some? then Some(now + m.viewOnceTTL.value * SECOND)
    else if key.0 in t.convs && t.convs[key.0].ttl.Some? then Some(now + t.convs[key.0].ttl.value * SECOND)
    else None
  }

  /** INSERT .. ON CONFLICT DO NOTHING: the first read wins. */
  function ReadInserted(t: Tables, key: Key, user: User, now: Time, expiresAt: Option<Time>): Tables {
    if key !in t.messages || (key, user) in t.readRows then t
    else t.(readRows := t.readRows[(key, user) := ReadRow(now, expiresAt, false)])
  }

  function Due(row: ReadRow, now: Time): bool {
    row.expiresAt.Some? && row.expiresAt.value <= now
  }

  function Expired(t: Tables, now: Time): Tables {
    t.(readRows := map k | k in t.readRows :: t.readRows[k].(expired := t.readRows[k].expired || Due(t.readRows[k], now)))
  }

  // ---------------------------------------------------------------- pages

  predicate Hidden(t: Tables, key: Key, user: User) {
    (key, user) in t.deletions || ((key, user) in t.readRows && t.readRows[(key, user)].expired)
  }

  /** The WHERE clause of GetMessages; `before <= 0` means no upper bound. */
  predicate Selected(t: Tables, conv: ConvId, user: User, before: int, clear: int, n: int) {
    (conv, n) in t.messages && clear < n && (before > 0 ==> n < before) && !Hidden(t, (conv, n), user)
  }

  function Clamp(limit: int): nat {
    if limit <= 0 || limit > 100 then 50 else limit
  }

  ghost predicate Descending(page: seq<int>) {
    forall i :: 0 <= i < |page| - 1 ==> page[i] > page[i + 1]
  }

  /** ORDER BY seq DESC LIMIT: selected numbers in descending order, cut off only by the limit. */
  ghost predicate IsPage(t: Tables, conv: ConvId, user: User, before: int, clear: int, limit: nat, page: seq<int>) {
    && Descending(page)
    && |page| <= limit
    && (forall n :: n in page ==> Selected(t, conv, user, before, clear, n))
    && (forall n :: Selected(t, conv, user, before, clear, n) && n !in page ==>
          |page| == limit && (limit > 0 ==> n < page[|page| - 1]))
  }

  /** In every reachable state a conversation's numbers are exactly 1 .. last_seq. */
  ghost predicate SeqsOk(t: Tables) {
    && (forall conv :: conv in t.convs ==> t.convs[conv].lastSeq >= 0)
    && (forall key :: key in t.messages <==> Numbered(t, key))
  }

  ghost predicate Numbered(t: Tables, key: Key) {
    key.0 in t.convs && 1 <= key.1 <= t.convs[key.0].lastSeq
  }

  /**
   What is on a page, by the columns: rows of the conversation after clear_seq and before the
   cursor that the user has neither deleted nor had expire; and every such row that is missing
   is older than a full page.
   */
  lemma PageByColumns(t: Tables, conv: ConvId, user: User, before: int, clear: int, limit: nat, page: seq<int>, n: int)
    requires IsPage(t, conv, user, before, clear, limit, page)
    ensures n in page ==>
              && (conv, n) in t.messages && clear < n && (before > 0 ==> n < before)
              && ((conv, n), user) !in t.deletions
              && (((conv, n), user) in t.readRows ==> !t.readRows[((conv, n), user)].expired)
    ensures && n !in page && (conv, n) in t.messages && clear < n && (before > 0 ==> n < before)
            && ((conv, n), user) !in t.deletions
            && (((conv, n), user) in t.readRows ==> !t.readRows[((conv, n), user)].expired)
            ==> |page| == limit && forall k :: k in page ==> n < k
  {
    if n in page {
      assert Selected(t, conv, user, before, clear, n);
    } else if Selected(t, conv, user, before, clear, n) {
      forall k | k in page ensures n < k {
        var i :| 0 <= i < |page| && page[i] == k;
        LastIsLeast(page, i);
      }
    }
  }

  lemma {:induction false} LastIsLeast(page: seq<int>, i: nat)
    requires Descending(page) && i < |page|
    ensures page[|page| - 1] <= page[i]
    decreases |page| - i
  {
    if i < |page| - 1 {
      assert page[i] > page[i + 1];
      LastIsLeast(page, i + 1);
    }
  }

  // ---------------------------------------------------------------- the store

  class Store {
    var convs: map<ConvId, ConvRow>
    var messages: map<Key, Message>
    var deletions: set<(Key, User)>
    var readRows: map<(Key, User), ReadRow>

    function View(): Tables
      reads this
    {
      Tables(convs, messages, deletions, readRows)
    }

    method CreateMessage(conv: ConvId, from: User, content: Content, head: Option<Head>,
                         viewOnce: bool, viewOnceTTL: Option<int>, now: Time)
      returns (number: Option<int>)
      modifies this`convs, this`messages
      ensures
        match Created(old(View()), conv, Message(from, now, now, content, head, None, viewOnce, viewOnceTTL))
        case Some(t) => View() == t && number == Some(old(convs)[conv].lastSeq + 1)
        case None => View() == old(View()) && number == None
    {
      if conv !in convs {
        return None;
      }
      var next := convs[conv].lastSeq + 1;
      if (conv, next) in messages {
        return None;
      }
      convs := convs[conv := convs[conv].(lastSeq := next)];
      messages := messages[(conv, next) := Message(from, now, now, content, head, None, viewOnce, viewOnceTTL)];
      return Some(next);
    }

    method EditMessage(conv: ConvId, n: int, content: Content, now: Time)
      modifies this`messages
      ensures View() == if (conv, n) in old(messages)
                        then WithRow(old(View()), (conv, n), RowEdited(old(messages)[(conv, n)], content, now)) else old(View())
    {
      if (conv, n) in messages && messages[(conv, n)].deletedAt.None? {
        var m := messages[(conv, n)];
        messages := messages[(conv, n) := m.(content := content, updatedAt := now, head := Some(Edited(OrEmpty(m.head), now)))];
      }
    }

    method UnsendMessage(conv: ConvId, n: int, now: Time)
      modifies this`messages
      ensures View() == if (conv, n) in old(messages)
                        then WithRow(old(View()), (conv, n), RowUnsent(old(messages)[(conv, n)], now)) else old(View())
    {
      if (conv, n) in messages {
        var m := messages[(conv, n)];
        var head := Some(MarkedUnsent(OrEmpty(m.head)));
        messages := messages[(conv, n) := m.(deletedAt := Some(now), updatedAt := now, head := head)];
      }
    }

    /** One transaction; it fails when there is no such row to lock, or the head cannot be written back. */
    method AddReaction(conv: ConvId, n: int, user: User, emoji: Emoji, now: Time) returns (ok: bool)
      modifies this`messages
      ensures ok == ((conv, n) in old(messages) && '\0' !in emoji)
      ensures View() == if ok then WithRow(old(View()), (conv, n), RowReacted(old(messages)[(conv, n)], user, emoji, now))
                        else old(View())
    {
      if (conv, n) !in messages {
        return false;
      }
      var head := OrEmpty(messages[(conv, n)].head);
      var newHead := ReactToHead(head, user, emoji);
      if !Storable(emoji) {
        return false;
      }
      messages := messages[(conv, n) := messages[(conv, n)].(head := Some(newHead), updatedAt := now)];
      return true;
    }

    method DeleteMessageForUser(key: Key, user: User)
      modifies this`deletions
      ensures View() == DeletedFor(old(View()), key, user)
    {
      if key in messages {
        deletions := deletions + {(key, user)};
      }
    }

    /** The rows of the query arrive newest first. */
    method GetMessages(conv: ConvId, user: User, before: int, limit: int, clear: int) returns (page: seq<int>)
      requires SeqsOk(View())
      ensures IsPage(View(), conv, user, before, clear, Clamp(limit), page)
    {
      page := [];
      if conv !in convs {
        assert forall k :: !Numbered(View(), (conv, k));
        return;
      }
      var n := if 0 < before <= convs[conv].lastSeq then before - 1 else convs[conv].lastSeq;
      while 0 < n && |page| < Clamp(limit)
        invariant 0 <= n && |page| <= Clamp(limit)
        invariant Descending(page)
        invariant forall i :: 0 <= i < |page| ==> n < page[i]
        invariant forall k :: k in page ==> Selected(View(), conv, user, before, clear, k)
        invariant forall k :: n < k && Selected(View(), conv, user, before, clear, k) ==> k in page
      {
        if Selected(View(), conv, user, before, clear, n) {
          page := page + [n];
        }
        n := n - 1;
      }
    }

    /** The INSERT of RecordMessageRead. */
    method InsertRead(key: Key, user: User, now: Time, expiresAt: Option<Time>)
      modifies this`readRows
      ensures View() == ReadInserted(old(View()), key, user, now, expiresAt)
    {
      if key in messages && (key, user) !in readRows {
        readRows := readRows[(key, user) := ReadRow(now, expiresAt, false)];
      }
    }

    method ExpireReadMessages(now: Time)
      modifies this`readRows
      ensures View() == Expired(old(View()), now)
    {
      readRows := map k | k in readRows ::
        if !readRows[k].expired && Due(readRows[k], now) then readRows[k].(expired := true) else readRows[k];
    }
  }
}
