/**
 Several nodes that pass messages on through Redis: SendToUsers of hub.go, Publish and
 Listen of redis/redis.go.  Every node listens on every user channel, its own publications
 included, and skips those by comparing node ids.
 */
module Cluster {
  import opened Prelude
  import opened Hub

  datatype Node = Node(nodeId: string, world: World)

  datatype Message = Message(from: string, user: UserId)

  function Messages(from: string, users: seq<UserId>): (m: seq<Message>)
    ensures |m| == |users| && forall i :: 0 <= i < |users| ==> m[i] == Message(from, users[i])
  {
    if users == [] then [] else Messages(from, users[..|users| - 1]) + [Message(from, users[|users| - 1])]
  }

  /** What a listening node puts on its sessions for a stream of messages. */
  function Received(h: HubState, nodeId: string, stream: seq<Message>): seq<SessId> {
    if stream == [] then []
    else
      var msg := stream[|stream| - 1];
      Received(h, nodeId, stream[..|stream| - 1]) + if msg.from == nodeId then [] else List(h, msg.user)
  }

  /** The receive loop of a node's subscription. */
  method Listen(hub: Hub, nodeId: string, stream: seq<Message>) returns (sent: seq<SessId>)
    requires hub.Valid()
    ensures sent == Received(hub.View(), nodeId, stream)
  {
    sent := [];
    for i := 0 to |stream|
      invariant sent == Received(hub.View(), nodeId, stream[..i])
    {
      assert stream[..i + 1][..i] == stream[..i];
      if stream[i].from == nodeId {
        continue;
      }
      var delivered := hub.SendToUser(stream[i].user);
      sent := sent + delivered;
    }
    assert stream[..|stream|] == stream;
  }

  /** What the first k nodes put on their sessions. */
  function RemoteSends(nodes: seq<Node>, k: nat, stream: seq<Message>): seq<SessId>
    requires k <= |nodes|
  {
    if k == 0 then []
    else RemoteSends(nodes, k - 1, stream) + Received(nodes[k - 1].world.hub, nodes[k - 1].nodeId, stream)
  }

  /** The users that node i publishes in one call of SendToUsers. */
  function Relayed(nodes: seq<Node>, i: nat, users: seq<UserId>, redis: bool, answers: seq<Answer>): seq<UserId>
    requires i < |nodes| && |answers| == |users|
  {
    if redis then Published(nodes[i].world.hub, users, answers) else []
  }

  /** Every copy that one call of SendToUsers on node i puts on a session, anywhere. */
  function Copied(nodes: seq<Node>, i: nat, users: seq<UserId>, skip: SessId, redis: bool, answers: seq<Answer>): seq<SessId>
    requires i < |nodes| && |answers| == |users|
  {
    LocalSends(nodes[i].world.hub, users, skip)
      + RemoteSends(nodes, |nodes|, Messages(nodes[i].nodeId, Relayed(nodes, i, users, redis, answers)))
  }

  // ---------------------------------------------------------------- counting copies

  /** How many entries the lists of these users hold for the session, a user named twice counted twice. */
  function Entries(h: HubState, users: seq<UserId>, id: SessId): nat {
    if users == [] then 0 else Entries(h, users[..|users| - 1], id) + Copies(h, users[|users| - 1], id)
  }

  /** The same over the first k nodes, but for the one that publishes. */
  function Elsewhere(nodes: seq<Node>, k: nat, from: string, users: seq<UserId>, id: SessId): nat
    requires k <= |nodes|
  {
    if k == 0 then 0
    else
      Elsewhere(nodes, k - 1, from, users, id)
        + if nodes[k - 1].nodeId == from then 0 else Entries(nodes[k - 1].world.hub, users, id)
  }

  lemma {:induction false} LocalCounts(h: HubState, users: seq<UserId>, skip: SessId, id: SessId)
    ensures Count(LocalSends(h, users, skip), id) == if id == skip then 0 else Entries(h, users, id)
  {
    if users != [] {
      var n := |users| - 1;
      LocalCounts(h, users[..n], skip, id);
      CountConcat(LocalSends(h, users[..n], skip), Without(List(h, users[n]), skip), id);
      WithoutCounts(List(h, users[n]), skip, id);
    }
  }

  lemma {:induction false} ReceivedCounts(h: HubState, nodeId: string, from: string, users: seq<UserId>, id: SessId)
    ensures Count(Received(h, nodeId, Messages(from, users)), id) == if from == nodeId then 0 else Entries(h, users, id)
  {
    if users != [] {
      var n := |users| - 1;
      ReceivedCounts(h, nodeId, from, users[..n], id);
      assert Messages(from, users)[..n] == Messages(from, users[..n]);
      CountConcat(Received(h, nodeId, Messages(from, users[..n])), if from == nodeId then [] else List(h, users[n]), id);
    }
  }

  lemma {:induction false} RemoteCounts(nodes: seq<Node>, k: nat, from: string, users: seq<UserId>, id: SessId)
    requires k <= |nodes|
    ensures Count(RemoteSends(nodes, k, Messages(from, users)), id) == Elsewhere(nodes, k, from, users, id)
  {
    if k > 0 {
      var node := nodes[k - 1];
      RemoteCounts(nodes, k - 1, from, users, id);
      ReceivedCounts(node.world.hub, node.nodeId, from, users, id);
      CountConcat(RemoteSends(nodes, k - 1, Messages(from, users)),
                  Received(node.world.hub, node.nodeId, Messages(from, users)), id);
    }
  }

  /**
   Exactly how many copies one call puts on a session, whatever the hubs look like: on the
   caller's node one for each entry that the lists of the named users hold for it, none for the
   skipped session; on every other node one for each entry in the lists of the published users.
   */
  lemma CopiesOfOneSend(nodes: seq<Node>, i: nat, users: seq<UserId>, skip: SessId, redis: bool, answers: seq<Answer>, id: SessId)
    requires i < |nodes| && |answers| == |users|
    ensures Count(Copied(nodes, i, users, skip, redis, answers), id)
         == (if id == skip then 0 else Entries(nodes[i].world.hub, users, id))
            + Elsewhere(nodes, |nodes|, nodes[i].nodeId, Relayed(nodes, i, users, redis, answers), id)
  {
    var relayed := Relayed(nodes, i, users, redis, answers);
    LocalCounts(nodes[i].world.hub, users, skip, id);
    RemoteCounts(nodes, |nodes|, nodes[i].nodeId, relayed, id);
    CountConcat(LocalSends(nodes[i].world.hub, users, skip), RemoteSends(nodes, |nodes|, Messages(nodes[i].nodeId, relayed)), id);
  }

  /** A session that has logged in twice as the same user gets everything twice. */
  lemma DoubleLoginCopiedTwice(nodes: seq<Node>, id: SessId, user: UserId, skip: SessId, redis: bool, answer: Answer)
    requires |nodes| == 1 && nodes[0].world == Run([Add(id), Login(id, user), Login(id, user)]) && id != skip
    ensures Count(Copied(nodes, 0, [user], skip, redis, [answer]), id) == 2
  {
    DoubleLoginIsListedTwice(id, user);
    CopiesOfOneSend(nodes, 0, [user], skip, redis, [answer], id);
    assert [user][..0] == [] && [id, id][..1] == [id] && [id][..0] == [];
    assert Count([id], id) == 1;
    assert Elsewhere(nodes, 0, nodes[0].nodeId, Relayed(nodes, 0, [user], redis, [answer]), id) == 0;
  }

  // ---------------------------------------------------------------- placement

  predicate At(nodes: seq<Node>, j: nat, id: SessId)
    requires j < |nodes|
  {
    id in nodes[j].world.hub.sessions
  }

  predicate DistinctIds(nodes: seq<Node>) {
    forall j, k :: 0 <= j < k < |nodes| ==> nodes[j].nodeId != nodes[k].nodeId
  }

  /** Every hub's lists are the exact inverse of who is logged in there. */
  ghost predicate AllExact(nodes: seq<Node>) {
    forall j :: 0 <= j < |nodes| ==> Exact(nodes[j].world)
  }

  ghost predicate WellFormed(nodes: seq<Node>) {
    DistinctIds(nodes) && AllExact(nodes)
  }

  /** The session is connected to node `home` and to no other. */
  ghost predicate LivesAt(nodes: seq<Node>, id: SessId, home: nat) {
    home < |nodes| && forall j :: 0 <= j < |nodes| ==> (At(nodes, j, id) <==> j == home)
  }

  /** How often a list of users names the one the session is logged in as. */
  function Named(w: World, users: seq<UserId>, id: SessId): nat {
    if id in w.hub.sessions && id in w.users then Count(users, w.users[id]) else 0
  }

  lemma {:induction false} ExactEntries(w: World, users: seq<UserId>, id: SessId)
    requires Exact(w)
    ensures Entries(w.hub, users, id) == Named(w, users, id)
  {
    if users != [] {
      ExactEntries(w, users[..|users| - 1], id);
      assert Copies(w.hub, users[|users| - 1], id) == Due(w, users[|users| - 1], id);
    }
  }

  lemma NodeEntries(nodes: seq<Node>, j: nat, users: seq<UserId>, id: SessId, home: nat)
    requires j < |nodes| && AllExact(nodes) && LivesAt(nodes, id, home)
    ensures Entries(nodes[j].world.hub, users, id) == if j == home then Named(nodes[home].world, users, id) else 0
  {
    assert At(nodes, j, id) <==> j == home;
    ExactEntries(nodes[j].world, users, id);
  }

  /** Only the session's own node contributes, and the publishing node never does. */
  lemma {:induction false} ElsewhereIsHome(nodes: seq<Node>, k: nat, from: string, users: seq<UserId>, id: SessId, home: nat)
    requires k <= |nodes| && AllExact(nodes) && LivesAt(nodes, id, home)
    ensures Elsewhere(nodes, k, from, users, id)
         == if home < k && nodes[home].nodeId != from then Named(nodes[home].world, users, id) else 0
  {
    if k > 0 {
      ElsewhereIsHome(nodes, k - 1, from, users, id, home);
      NodeEntries(nodes, k - 1, users, id, home);
    }
  }

  /** Where the lists are exact: one copy each time the session's user is named, or published if it is elsewhere. */
  lemma CopiesWhereExact(nodes: seq<Node>, i: nat, users: seq<UserId>, skip: SessId, redis: bool, answers: seq<Answer>,
                         id: SessId, home: nat)
    requires i < |nodes| && |answers| == |users| && WellFormed(nodes) && LivesAt(nodes, id, home)
    ensures Count(Copied(nodes, i, users, skip, redis, answers), id)
         == if home == i then (if id == skip then 0 else Named(nodes[i].world, users, id))
            else Named(nodes[home].world, Relayed(nodes, i, users, redis, answers), id)
  {
    CopiesOfOneSend(nodes, i, users, skip, redis, answers, id);
    NodeEntries(nodes, i, users, id, home);
    ElsewhereIsHome(nodes, |nodes|, nodes[i].nodeId, Relayed(nodes, i, users, redis, answers), id, home);
  }

  /** A session of the calling node, the skipped one above all, gets nothing through Redis. */
  lemma NothingComesBack(nodes: seq<Node>, i: nat, users: seq<UserId>, redis: bool, answers: seq<Answer>, id: SessId)
    requires i < |nodes| && |answers| == |users| && WellFormed(nodes) && LivesAt(nodes, id, i)
    ensures id !in RemoteSends(nodes, |nodes|, Messages(nodes[i].nodeId, Relayed(nodes, i, users, redis, answers)))
  {
    var relayed := Relayed(nodes, i, users, redis, answers);
    RemoteCounts(nodes, |nodes|, nodes[i].nodeId, relayed, id);
    ElsewhereIsHome(nodes, |nodes|, nodes[i].nodeId, relayed, id, i);
    CountedIsIn(RemoteSends(nodes, |nodes|, Messages(nodes[i].nodeId, relayed)), id);
  }

  // ---------------------------------------------------------------- distinct recipients

  predicate Distinct(users: seq<UserId>) {
    forall j, k :: 0 <= j < k < |users| ==> users[j] != users[k]
  }

  lemma {:induction false} OccursOnce(users: seq<UserId>, user: UserId)
    requires Distinct(users)
    ensures Count(users, user) == if user in users then 1 else 0
  {
    if users != [] {
      var n := |users| - 1;
      OccursOnce(users[..n], user);
      assert users == users[..n] + [users[n]];
    }
  }

  /** The user at position k is on no list here and Redis answers that it is online elsewhere. */
  predicate Handed(h: HubState, users: seq<UserId>, answers: seq<Answer>, k: nat)
    requires |answers| == |users|
  {
    k < |users| && List(h, users[k]) == [] && answers[k] == Online(true)
  }

  lemma {:induction false} PublishedOnce(h: HubState, users: seq<UserId>, answers: seq<Answer>, user: UserId)
    requires |answers| == |users| && Distinct(users)
    ensures Count(Published(h, users, answers), user)
         == if exists k: nat :: Handed(h, users, answers, k) && users[k] == user then 1 else 0
  {
    if users != [] {
      var n := |users| - 1;
      PublishedOnce(h, users[..n], answers[..n], user);
      assert forall k: nat :: k < n ==> (Handed(h, users[..n], answers[..n], k) <==> Handed(h, users, answers, k));
      if Handed(h, users, answers, n) {
        var rest := Published(h, users[..n], answers[..n]);
        assert (rest + [users[n]])[..|rest|] == rest;
      }
    }
  }

  /** Who is to get the message. */
  ghost predicate Recipient(nodes: seq<Node>, i: nat, users: seq<UserId>, skip: SessId, redis: bool, answers: seq<Answer>,
                            id: SessId, home: nat)
    requires i < |nodes| && home < |nodes| && |answers| == |users|
  {
    var w := nodes[home].world;
    && id in w.hub.sessions
    && id in w.users
    && if home == i then id != skip && w.users[id] in users
       else redis && exists k: nat :: Handed(nodes[i].world.hub, users, answers, k) && users[k] == w.users[id]
  }

  /** Distinct user ids: every recipient gets exactly one copy, everyone else none. */
  lemma OneCopyEach(nodes: seq<Node>, i: nat, users: seq<UserId>, skip: SessId, redis: bool, answers: seq<Answer>,
                    id: SessId, home: nat)
    requires i < |nodes| && |answers| == |users| && WellFormed(nodes) && LivesAt(nodes, id, home)
    requires Distinct(users)
    ensures Count(Copied(nodes, i, users, skip, redis, answers), id)
         == if Recipient(nodes, i, users, skip, redis, answers, id, home) then 1 else 0
  {
    CopiesWhereExact(nodes, i, users, skip, redis, answers, id, home);
    var w := nodes[home].world;
    assert At(nodes, home, id);
    if id in w.users {
      OccursOnce(users, w.users[id]);
      PublishedOnce(nodes[i].world.hub, users, answers, w.users[id]);
    }
  }

  /** A user named twice is sent everything twice: distinctness is what the guarantee needs. */
  lemma NamedTwiceCopiedTwice(nodes: seq<Node>, i: nat, user: UserId, skip: SessId, answers: seq<Answer>, id: SessId)
    requires i < |nodes| && |answers| == 2 && WellFormed(nodes) && LivesAt(nodes, id, i)
    requires id != skip && Owns(nodes[i].world, user, id)
    ensures Count(Copied(nodes, i, [user, user], skip, true, answers), id) == 2
  {
    CopiesWhereExact(nodes, i, [user, user], skip, true, answers, id, i);
    assert [user, user][..1] == [user] && [user][..0] == [];
    assert Count([user], user) == 1;
    assert Count([user, user], user) == 2;
    assert At(nodes, i, id);
  }
}
