/**
 Read receipts in the SDK (sdk/src/hooks/useReadReceipts.ts), which the hook keeps twice: in a
 Map and in an array.

 `Seen` and its steps describe both copies; `ReceiptsHook` updates them as the callbacks do.
 */
module Receipts {
  import opened Prelude

  type User = string
  type ConvId = string

  datatype Marks = Marks(readSeq: int, recvSeq: int)

  datatype ReadReceipt = ReadReceipt(user: User, marks: Marks)

  /** A JavaScript Map: its keys in insertion order, and their values. */
  datatype JsMap = JsMap(keys: seq<User>, at: map<User, Marks>)

  const EMPTY_MAP := JsMap([], map[])

  function Set(m: JsMap, user: User, marks: Marks): JsMap {
    JsMap(if user in m.at then m.keys else m.keys + [user], m.at[user := marks])
  }

  /** The two copies. */
  datatype Seen = Seen(receipts: JsMap, list: seq<ReadReceipt>)

  datatype What = Read | Recv

  /** The event of a `read` or `recv` info message. */
  datatype Info = Info(what: What, conv: ConvId, user: User, seqNo: int)

  function Raised(marks: Marks, what: What, seqNo: int): Marks {
    match what
    case Read => marks.(readSeq := Max(marks.readSeq, seqNo))
    case Recv => marks.(recvSeq := Max(marks.recvSeq, seqNo))
  }

  function MapAfter(m: JsMap, e: Info): JsMap {
    Set(m, e.user, Raised(if e.user in m.at then m.at[e.user] else Marks(0, 0), e.what, e.seqNo))
  }

  /** findIndex: the first position of the user, or the length. */
  function Position(list: seq<ReadReceipt>, user: User): (i: nat)
    ensures i <= |list|
    ensures i < |list| ==> list[i].user == user
    ensures forall k :: 0 <= k < i ==> list[k].user != user
  {
    if list == [] then 0
    else
      var i := Position(list[..|list| - 1], user);
      if i < |list| - 1 || list[|list| - 1].user == user then i else i + 1
  }

  function ListAfter(list: seq<ReadReceipt>, e: Info): seq<ReadReceipt> {
    var i := Position(list, e.user);
    if i < |list| then list[i := list[i].(marks := Raised(list[i].marks, e.what, e.seqNo))]
    else list + [ReadReceipt(e.user, if e.what.Read? then Marks(e.seqNo, 0) else Marks(0, e.seqNo))]
  }

  function Heard(s: Seen, conv: ConvId, e: Info): Seen {
    if e.conv != conv then s else Seen(MapAfter(s.receipts, e), ListAfter(s.list, e))
  }

  /** The Map that refresh builds from the array it fetched. */
  function MapOf(list: seq<ReadReceipt>): JsMap {
    if list == [] then EMPTY_MAP
    else Set(MapOf(list[..|list| - 1]), list[|list| - 1].user, list[|list| - 1].marks)
  }

  function ReadersUpTo(m: JsMap, n: nat, seqNo: int): seq<User>
    requires n <= |m.keys|
  {
    if n == 0 then []
    else
      var rest := ReadersUpTo(m, n - 1, seqNo);
      var user := m.keys[n - 1];
      if user in m.at && m.at[user].readSeq >= seqNo then rest + [user] else rest
  }

  class ReceiptsHook {
    const conversationId: ConvId
    var receipts: JsMap
    var receiptList: seq<ReadReceipt>

    function View(): Seen
      reads this
    {
      Seen(receipts, receiptList)
    }

    constructor (conv: ConvId)
      ensures View() == Seen(EMPTY_MAP, [])
    {
      conversationId := conv;
      receipts, receiptList := EMPTY_MAP, [];
    }

    /** `fetched` is None when the request fails. */
    method Refresh(fetched: Option<seq<ReadReceipt>>)
      modifies this
      ensures View() == if fetched.None? then old(View()) else Seen(MapOf(fetched.value), fetched.value)
    {
      if fetched.Some? {
        var list := fetched.value;
        receiptList := list;
        var m := EMPTY_MAP;
        for i := 0 to |list|
          invariant m == MapOf(list[..i])
        {
          assert list[..i + 1][..i] == list[..i];
          m := Set(m, list[i].user, list[i].marks);
        }
        assert list[..|list|] == list;
        receipts := m;
      }
    }

    method FindIndex(user: User) returns (i: nat)
      ensures i == Position(receiptList, user)
    {
      i := 0;
      while i < |receiptList|
        invariant i <= |receiptList|
        invariant forall k :: 0 <= k < i ==> receiptList[k].user != user
      {
        if receiptList[i].user == user {
          return;
        }
        i := i + 1;
      }
    }

    method HandleRead(conv: ConvId, user: User, seqNo: int)
      modifies this
      ensures View() == Heard(old(View()), conversationId, Info(Read, conv, user, seqNo))
    {
      if conv == conversationId {
        var current := if user in receipts.at then receipts.at[user] else Marks(0, 0);
        receipts := Set(receipts, user, current.(readSeq := Max(current.readSeq, seqNo)));
        var idx := FindIndex(user);
        if idx < |receiptList| {
          var r := receiptList[idx];
          receiptList := receiptList[idx := r.(marks := r.marks.(readSeq := Max(r.marks.readSeq, seqNo)))];
        } else {
          receiptList := receiptList + [ReadReceipt(user, Marks(seqNo, 0))];
        }
      }
    }

    method HandleRecv(conv: ConvId, user: User, seqNo: int)
      modifies this
      ensures View() == Heard(old(View()), conversationId, Info(Recv, conv, user, seqNo))
    {
      if conv == conversationId {
        var current := if user in receipts.at then receipts.at[user] else Marks(0, 0);
        receipts := Set(receipts, user, current.(recvSeq := Max(current.recvSeq, seqNo)));
        var idx := FindIndex(user);
        if idx < |receiptList| {
          var r := receiptList[idx];
          receiptList := receiptList[idx := r.(marks := r.marks.(recvSeq := Max(r.marks.recvSeq, seqNo)))];
        } else {
          receiptList := receiptList + [ReadReceipt(user, Marks(0, seqNo))];
        }
      }
    }

    method GetReadersForSeq(seqNo: int) returns (readers: seq<User>)
      ensures readers == ReadersUpTo(receipts, |receipts.keys|, seqNo)
    {
      readers := [];
      for i := 0 to |receipts.keys|
        invariant readers == ReadersUpTo(receipts, i, seqNo)
      {
        var user := receipts.keys[i];
        if user in receipts.at && receipts.at[user].readSeq >= seqNo {
          readers := readers + [user];
        }
      }
    }
  }

  // ---------------------------------------------------------------- the copies agree

  predicate Unrepeated(list: seq<ReadReceipt>) {
    forall i, j :: 0 <= i < j < |list| ==> list[i].user != list[j].user
  }

  /** Entry by entry, in the same order, and each user once. */
  ghost predicate Agree(s: Seen) {
    && Unrepeated(s.list)
    && |s.list| == |s.receipts.keys|
    && (forall i :: 0 <= i < |s.list| ==> s.receipts.keys[i] == s.list[i].user)
    && (forall i :: 0 <= i < |s.list| ==> s.list[i].user in s.receipts.at && s.receipts.at[s.list[i].user] == s.list[i].marks)
    && (forall user :: user in s.receipts.at ==> Position(s.list, user) < |s.list|)
  }

  lemma SamePositions(a: seq<ReadReceipt>, b: seq<ReadReceipt>)
    requires |a| == |b| && forall k :: 0 <= k < |a| ==> a[k].user == b[k].user
    ensures forall user :: Position(a, user) == Position(b, user)
  {
  }

  /** Marks of a user not heard of before: the Map starts from zero, the array from the event. */
  predicate Harmless(s: Seen, conv: ConvId, e: Info) {
    e.conv != conv || e.user in s.receipts.at || e.seqNo >= 0
  }

  lemma KnownUserAgrees(s: Seen, conv: ConvId, e: Info)
    requires Agree(s) && e.conv == conv && e.user in s.receipts.at
    ensures Agree(Heard(s, conv, e))
  {
    var t := Heard(s, conv, e);
    SamePositions(s.list, t.list);
    forall user | user in t.receipts.at ensures Position(t.list, user) < |t.list| {
      assert Position(s.list, user) == Position(t.list, user);
    }
  }

  lemma AppendedPosition(list: seq<ReadReceipt>, r: ReadReceipt, user: User)
    ensures Position(list + [r], user) < |list| + 1 <==> Position(list, user) < |list| || user == r.user
  {
    assert (list + [r])[..|list|] == list;
  }

  lemma AppendAgrees(s: Seen, user: User, inMap: Marks, inList: Marks)
    requires Agree(s) && user !in s.receipts.at
    ensures Agree(Seen(Set(s.receipts, user, inMap), s.list + [ReadReceipt(user, inList)])) <==> inMap == inList
  {
    var r := ReadReceipt(user, inList);
    var t := Seen(Set(s.receipts, user, inMap), s.list + [r]);
    assert t.list[|s.list|] == r && t.receipts.at[user] == inMap;
    forall u | u in t.receipts.at ensures Position(t.list, u) < |t.list| {
      AppendedPosition(s.list, r, u);
    }
  }

  lemma NewUserAgrees(s: Seen, conv: ConvId, e: Info)
    requires Agree(s) && e.conv == conv && e.user !in s.receipts.at
    ensures Agree(Heard(s, conv, e)) <==> e.seqNo >= 0
  {
    var inMap := Raised(Marks(0, 0), e.what, e.seqNo);
    var inList := if e.what.Read? then Marks(e.seqNo, 0) else Marks(0, e.seqNo);
    assert Position(s.list, e.user) == |s.list|;
    AppendAgrees(s, e.user, inMap, inList);
    assert inMap == inList <==> e.seqNo >= 0;
  }

  /** An event leaves the copies in agreement exactly when it is harmless. */
  lemma EventKeepsAgreement(s: Seen, conv: ConvId, e: Info)
    requires Agree(s)
    ensures Agree(Heard(s, conv, e)) <==> Harmless(s, conv, e)
  {
    if e.conv == conv {
      if e.user in s.receipts.at {
        KnownUserAgrees(s, conv, e);
      } else {
        NewUserAgrees(s, conv, e);
      }
    }
  }

  /** A fetched list names each member once, so rebuilding the Map from it agrees. */
  lemma {:induction false} RefreshAgrees(list: seq<ReadReceipt>)
    requires Unrepeated(list)
    ensures Agree(Seen(MapOf(list), list))
  {
    if list != [] {
      var n := |list| - 1;
      RefreshAgrees(list[..n]);
      var before := Seen(MapOf(list[..n]), list[..n]);
      assert list[n].user !in before.receipts.at;
      AppendAgrees(before, list[n].user, list[n].marks, list[n].marks);
      assert list == list[..n] + [list[n]];
    }
  }

  // ---------------------------------------------------------------- runs of the hook

  datatype Event = Fetched(list: seq<ReadReceipt>) | Told(info: Info)

  function Next(s: Seen, conv: ConvId, e: Event): Seen {
    match e
    case Fetched(list) => Seen(MapOf(list), list)
    case Told(info) => Heard(s, conv, info)
  }

  function Run(conv: ConvId, events: seq<Event>): Seen {
    if events == [] then Seen(EMPTY_MAP, [])
    else Next(Run(conv, events[..|events| - 1]), conv, events[|events| - 1])
  }

  /** What the server sends: lists with one row a member, sequence numbers from 0 up. */
  predicate FromServer(e: Event) {
    match e
    case Fetched(list) => Unrepeated(list)
    case Told(info) => info.seqNo >= 0
  }

  lemma {:induction false} CopiesAlwaysAgree(conv: ConvId, events: seq<Event>)
    requires forall e :: e in events ==> FromServer(e)
    ensures Agree(Run(conv, events))
  {
    if events != [] {
      var n := |events| - 1;
      CopiesAlwaysAgree(conv, events[..n]);
      assert FromServer(events[n]);
      match events[n]
      case Fetched(list) => RefreshAgrees(list);
      case Told(info) => EventKeepsAgreement(Run(conv, events[..n]), conv, info);
    }
  }

  /** The users of the array whose read mark reaches the message. */
  function ReadersInList(list: seq<ReadReceipt>, seqNo: int): seq<User> {
    if list == [] then []
    else
      var rest := ReadersInList(list[..|list| - 1], seqNo);
      if list[|list| - 1].marks.readSeq >= seqNo then rest + [list[|list| - 1].user] else rest
  }

  /** getReadersForSeq walks the Map; the array gives the same users in the same order. */
  lemma {:induction false} ReadersAgree(s: Seen, n: nat, seqNo: int)
    requires Agree(s) && n <= |s.list|
    ensures ReadersUpTo(s.receipts, n, seqNo) == ReadersInList(s.list[..n], seqNo)
  {
    if n > 0 {
      ReadersAgree(s, n - 1, seqNo);
      assert s.list[..n][..n - 1] == s.list[..n - 1];
      assert s.receipts.keys[n - 1] == s.list[n - 1].user;
    }
  }

  // ---------------------------------------------------------------- order and repetition

  function HeardAll(s: Seen, conv: ConvId, infos: seq<Info>): Seen {
    if infos == [] then s else Heard(HeardAll(s, conv, infos[..|infos| - 1]), conv, infos[|infos| - 1])
  }

  predicate Concerns(e: Info, conv: ConvId, user: User) {
    e.conv == conv && e.user == user
  }

  function MarkOf(marks: Marks, what: What): int {
    if what.Read? then marks.readSeq else marks.recvSeq
  }

  function MarksOf(m: JsMap, user: User): Marks {
    if user in m.at then m.at[user] else Marks(0, 0)
  }

  /** `mark` is the largest of the starting mark and the events of its kind. */
  ghost predicate IsHighest(mark: int, start: int, conv: ConvId, user: User, what: What, infos: seq<Info>) {
    && mark >= start
    && (forall e :: e in infos && Concerns(e, conv, user) && e.what == what ==> mark >= e.seqNo)
    && (mark == start || exists e :: e in infos && Concerns(e, conv, user) && e.what == what && e.seqNo == mark)
  }

  ghost predicate Mentioned(conv: ConvId, user: User, infos: seq<Info>) {
    exists e :: e in infos && Concerns(e, conv, user)
  }

  lemma {:induction false} FoldIsHighest(s: Seen, conv: ConvId, user: User, what: What, infos: seq<Info>)
    ensures var t := HeardAll(s, conv, infos);
            && (user in t.receipts.at <==> user in s.receipts.at || Mentioned(conv, user, infos))
            && IsHighest(MarkOf(MarksOf(t.receipts, user), what), MarkOf(MarksOf(s.receipts, user), what),
                         conv, user, what, infos)
  {
    if infos != [] {
      var n := |infos| - 1;
      FoldIsHighest(s, conv, user, what, infos[..n]);
      assert infos == infos[..n] + [infos[n]];
      var mark := MarkOf(MarksOf(HeardAll(s, conv, infos).receipts, user), what);
      if e :| e in infos[..n] && Concerns(e, conv, user) && e.what == what && e.seqNo == mark {
        assert e in infos;
      }
      if Concerns(infos[n], conv, user) {
        assert infos[n] in infos;
      }
    }
  }

  /**
   The same events in any order, any number of times each, leave the same function from users
   to marks.
   */
  lemma OrderAndRepetitionDoNotMatter(s: Seen, conv: ConvId, infos: seq<Info>, others: seq<Info>)
    requires forall e :: e in infos <==> e in others
    ensures HeardAll(s, conv, infos).receipts.at == HeardAll(s, conv, others).receipts.at
  {
    var a, b := HeardAll(s, conv, infos).receipts, HeardAll(s, conv, others).receipts;
    forall user ensures (user in a.at <==> user in b.at) && (user in a.at ==> a.at[user] == b.at[user]) {
      FoldIsHighest(s, conv, user, Read, infos);
      FoldIsHighest(s, conv, user, Read, others);
      FoldIsHighest(s, conv, user, Recv, infos);
      FoldIsHighest(s, conv, user, Recv, others);
      assert MarkOf(MarksOf(a, user), Read) == MarkOf(MarksOf(b, user), Read);
      assert MarkOf(MarksOf(a, user), Recv) == MarkOf(MarksOf(b, user), Recv);
    }
  }
}
