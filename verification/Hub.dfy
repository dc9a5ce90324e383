/**
 The hub of hub.go: which sessions are connected, which of them belong to which user, and
 who is online.

 `HubState` and its step functions work on session ids; the class `Hub` does the same work
 on its maps of `Session` objects.  `World` adds the user each session is logged in as, and
 the lemmas follow a world through any run of register, login, unregister and shutdown.
 */
module Hub {
  import opened Prelude
  import opened Uuid

  type SessId = string
  type UserId = Id

  datatype HubState = HubState(sessions: set<SessId>, index: map<UserId, seq<SessId>>, online: set<UserId>)

  /** A user without an entry reads as a nil slice. */
  function List(h: HubState, user: UserId): seq<SessId> {
    if user in h.index then h.index[user] else []
  }

  function WithoutFirst(list: seq<SessId>, id: SessId): seq<SessId> {
    if list == [] then []
    else if list[0] == id then list[1..]
    else [list[0]] + WithoutFirst(list[1..], id)
  }

  function Listed(h: HubState, user: UserId, id: SessId): HubState {
    h.(index := h.index[user := List(h, user) + [id]], online := h.online + {user})
  }

  /** Take one entry out; a user left with none disappears from both maps. */
  function Unlisted(h: HubState, user: UserId, id: SessId): HubState {
    var rest := WithoutFirst(List(h, user), id);
    if rest == [] then h.(index := h.index - {user}, online := h.online - {user})
    else h.(index := h.index[user := rest])
  }

  function Added(h: HubState, id: SessId, user: Option<UserId>): HubState {
    var h := h.(sessions := h.sessions + {id});
    if user.None? then h else Listed(h, user.value, id)
  }

  function Removed(h: HubState, id: SessId, user: Option<UserId>): HubState {
    var h := h.(sessions := h.sessions - {id});
    if user.None? then h else Unlisted(h, user.value, id)
  }

  function Authenticated(h: HubState, id: SessId, was: Option<UserId>, user: UserId): HubState {
    Listed(if was.Some? && was.value != user then Unlisted(h, was.value, id) else h, user, id)
  }

  const EMPTY_HUB := HubState({}, map[], {})

  lemma CutInRest(list: seq<SessId>, i: nat)
    requires 0 < i < |list|
    ensures [list[0]] + (list[1..][..i - 1] + list[1..][i..]) == list[..i] + list[i + 1..]
  {
  }

  lemma {:induction false} WithoutFirstAt(list: seq<SessId>, id: SessId, i: nat)
    requires i <= |list|
    requires forall k :: 0 <= k < i ==> list[k] != id
    requires i < |list| ==> list[i] == id
    ensures WithoutFirst(list, id) == if i < |list| then list[..i] + list[i + 1..] else list
  {
    if i > 0 {
      WithoutFirstAt(list[1..], id, i - 1);
      if i < |list| {
        CutInRest(list, i);
      } else {
        assert [list[0]] + list[1..] == list;
      }
    }
  }

  lemma {:induction false} WithoutFirstCounts(list: seq<SessId>, id: SessId, s: SessId)
    ensures Count(WithoutFirst(list, id), s) == if s == id && Count(list, s) > 0 then Count(list, s) - 1 else Count(list, s)
  {
    if list != [] {
      assert list == [list[0]] + list[1..];
      CountConcat([list[0]], list[1..], s);
      if list[0] != id {
        CountConcat([list[0]], WithoutFirst(list[1..], id), s);
        WithoutFirstCounts(list[1..], id, s);
      }
    }
  }

  // ---------------------------------------------------------------- sending

  /** The sessions of this hub that a send to `users` reaches, in order. */
  function LocalSends(h: HubState, users: seq<UserId>, skip: SessId): seq<SessId> {
    if users == [] then []
    else LocalSends(h, users[..|users| - 1], skip) + Without(List(h, users[|users| - 1]), skip)
  }

  /** What Redis says of a user, and whether the publish that may follow gets through. */
  datatype Answer = Online(publishOk: bool) | Offline | Failed

  /** The users handed to the other nodes: no session here, and said to be online. */
  function Published(h: HubState, users: seq<UserId>, answers: seq<Answer>): seq<UserId>
    requires |answers| == |users|
  {
    if users == [] then []
    else
      var n := |users| - 1;
      var rest := Published(h, users[..n], answers[..n]);
      if List(h, users[n]) == [] && answers[n] == Online(true) then rest + [users[n]] else rest
  }

  // ---------------------------------------------------------------- the objects

  class Session {
    const id: SessId
    var userID: Option<UserId>

    constructor (id: SessId)
      ensures this.id == id && userID == None
    {
      this.id := id;
      userID := None;
    }
  }

  function Ids(list: seq<Session>): (ids: seq<SessId>)
    ensures |ids| == |list| && forall i :: 0 <= i < |list| ==> ids[i] == list[i].id
  {
    if list == [] then [] else Ids(list[..|list| - 1]) + [list[|list| - 1].id]
  }

  lemma IdsAppend(list: seq<Session>, sess: Session)
    ensures Ids(list + [sess]) == Ids(list) + [sess.id]
  {
    assert (list + [sess])[..|list|] == list;
  }

  /** `index` lists the ids of the sessions in `lists`. */
  ghost predicate Matches(lists: map<UserId, seq<Session>>, index: map<UserId, seq<SessId>>) {
    && index.Keys == lists.Keys
    && forall user :: user in lists ==> index[user] == Ids(lists[user])
  }

  lemma MatchesUpdate(lists: map<UserId, seq<Session>>, index: map<UserId, seq<SessId>>, user: UserId, list: seq<Session>)
    requires Matches(lists, index)
    ensures Matches(lists[user := list], index[user := Ids(list)])
    ensures Matches(lists - {user}, index - {user})
  {
  }

  class Hub {
    var sessions: map<SessId, Session>
    var userSessions: map<UserId, seq<Session>>
    var online: set<UserId>
    ghost var index: map<UserId, seq<SessId>>

    ghost predicate Valid()
      reads this`userSessions, this`index
    {
      Matches(userSessions, index)
    }

    ghost function View(): HubState
      reads this
    {
      HubState(sessions.Keys, index, online)
    }

    constructor ()
      ensures Valid() && View() == EMPTY_HUB
    {
      sessions, userSessions, online, index := map[], map[], {}, map[];
    }

    method SessionsOf(user: UserId) returns (list: seq<Session>)
      requires Valid()
      ensures Ids(list) == List(View(), user)
      ensures list == if user in userSessions then userSessions[user] else []
    {
      list := if user in userSessions then userSessions[user] else [];
    }

    /** userSessions[user] = append(userSessions[user], sess); online[user] = true */
    method Enlist(sess: Session, user: UserId)
      requires Valid()
      modifies this`userSessions, this`index, this`online
      ensures Valid() && View() == Listed(old(View()), user, sess.id)
    {
      var list := SessionsOf(user);
      IdsAppend(list, sess);
      MatchesUpdate(userSessions, index, user, list + [sess]);
      userSessions := userSessions[user := list + [sess]];
      index := index[user := Ids(list) + [sess.id]];
      online := online + {user};
    }

    /** What removeSession and AuthenticateSession do to the list of a session's user. */
    method Unlist(sess: Session, user: UserId)
      requires Valid()
      modifies this`userSessions, this`index, this`online
      ensures Valid() && View() == Unlisted(old(View()), user, sess.id)
    {
      var list := SessionsOf(user);
      list := DropFirst(list, sess.id);
      MatchesUpdate(userSessions, index, user, list);
      if |list| == 0 {
        userSessions := userSessions - {user};
        index := index - {user};
        online := online - {user};
      } else {
        userSessions := userSessions[user := list];
        index := index[user := Ids(list)];
      }
    }

    method AddSession(sess: Session)
      requires Valid()
      modifies this
      ensures Valid() && View() == Added(old(View()), sess.id, sess.userID)
    {
      sessions := sessions[sess.id := sess];
      if sess.userID.Some? {
        Enlist(sess, sess.userID.value);
      }
    }

    /** `left` is the user whose going offline is announced. */
    method RemoveSession(sess: Session) returns (left: Option<UserId>)
      requires Valid()
      modifies this
      ensures Valid() && View() == Removed(old(View()), sess.id, sess.userID)
      ensures left == if sess.userID.Some? && List(View(), sess.userID.value) == [] then sess.userID else None
    {
      sessions := sessions - {sess.id};
      left := None;
      if sess.userID.Some? {
        var user := sess.userID.value;
        Unlist(sess, user);
        if user !in userSessions {
          left := Some(user);
        }
      }
    }

    /** `arrived` says that the user's coming online is announced. */
    method AuthenticateSession(sess: Session, user: UserId) returns (arrived: bool)
      requires Valid()
      modifies this, sess`userID
      ensures Valid() && View() == Authenticated(old(View()), sess.id, old(sess.userID), user)
      ensures sess.userID == Some(user)
      ensures arrived <==> user !in old(online)
    {
      arrived := user !in online;
      if sess.userID.Some? && sess.userID.value != user {
        Unlist(sess, sess.userID.value);
      }
      sess.userID := Some(user);
      Enlist(sess, user);
    }

    method CloseAllSessions()
      requires Valid()
      modifies this
      ensures Valid() && View() == EMPTY_HUB
    {
      sessions, userSessions, online, index := map[], map[], {}, map[];
    }

    /** `sent` lists the sessions the message was put on, in order. */
    method SendToUser(user: UserId) returns (sent: seq<SessId>)
      requires Valid()
      ensures sent == List(View(), user)
    {
      var list := SessionsOf(user);
      sent := [];
      for i := 0 to |list|
        invariant sent == Ids(list)[..i]
      {
        sent := sent + [list[i].id];
      }
    }

    method SendToUsers(users: seq<UserId>, skip: SessId, redis: bool, answers: seq<Answer>)
      returns (sent: seq<SessId>, published: seq<UserId>)
      requires Valid() && |answers| == |users|
      ensures sent == LocalSends(View(), users, skip)
      ensures published == if redis then Published(View(), users, answers) else []
    {
      var localUsers;
      sent, localUsers := SendHere(users, skip);
      published := [];
      if redis {
        for i := 0 to |users|
          invariant published == Published(View(), users[..i], answers[..i])
        {
          assert users[..i + 1][..i] == users[..i] && answers[..i + 1][..i] == answers[..i];
          assert users[i] in users;
          if users[i] !in localUsers && answers[i] == Online(true) {
            published := published + [users[i]];
          }
        }
        assert users[..|users|] == users && answers[..|answers|] == answers;
      }
    }

    /** The part of SendToUsers under the read lock. */
    method SendHere(users: seq<UserId>, skip: SessId) returns (sent: seq<SessId>, localUsers: set<UserId>)
      requires Valid()
      ensures sent == LocalSends(View(), users, skip)
      ensures forall user :: user in localUsers <==> user in users && List(View(), user) != []
    {
      sent, localUsers := [], {};
      for i := 0 to |users|
        invariant sent == LocalSends(View(), users[..i], skip)
        invariant forall user :: user in localUsers <==> user in users[..i] && List(View(), user) != []
      {
        var list := SessionsOf(users[i]);
        assert users[..i + 1] == users[..i] + [users[i]];
        if |list| > 0 {
          localUsers := localUsers + {users[i]};
          sent := SendAll(list, skip, sent);
        }
      }
      assert users[..|users|] == users;
    }
  }

  /** The loop that looks for the session and cuts it out. */
  method DropFirst(list: seq<Session>, id: SessId) returns (rest: seq<Session>)
    ensures Ids(rest) == WithoutFirst(Ids(list), id)
  {
    rest := list;
    var i := 0;
    while i < |list|
      invariant 0 <= i <= |list| && rest == list
      invariant forall k :: 0 <= k < i ==> list[k].id != id
    {
      if list[i].id == id {
        rest := list[..i] + list[i + 1..];
        break;
      }
      i := i + 1;
    }
    WithoutFirstAt(Ids(list), id, i);
    assert Ids(rest) == if i < |list| then Ids(list)[..i] + Ids(list)[i + 1..] else Ids(list);
  }

  /** The inner loop of SendToUsers. */
  method SendAll(list: seq<Session>, skip: SessId, before: seq<SessId>) returns (sent: seq<SessId>)
    ensures sent == before + Without(Ids(list), skip)
  {
    sent := before;
    for i := 0 to |list|
      invariant sent == before + Without(Ids(list)[..i], skip)
    {
      assert Ids(list)[..i + 1][..i] == Ids(list)[..i];
      if list[i].id != skip {
        sent := sent + [list[i].id];
      }
    }
    assert Ids(list)[..|list|] == Ids(list);
  }

  // ---------------------------------------------------------------- runs

  /** `users` is the userID of every session that has one. */
  datatype World = World(hub: HubState, users: map<SessId, UserId>)

  datatype Event = Add(id: SessId) | Login(id: SessId, user: UserId) | Remove(id: SessId) | CloseAll

  function UserOf(w: World, id: SessId): Option<UserId> {
    if id in w.users then Some(w.users[id]) else None
  }

  function Next(w: World, e: Event): World {
    match e
    case Add(id) => w.(hub := Added(w.hub, id, UserOf(w, id)))
    case Login(id, user) => World(Authenticated(w.hub, id, UserOf(w, id), user), w.users[id := user])
    case Remove(id) => w.(hub := Removed(w.hub, id, UserOf(w, id)))
    case CloseAll => w.(hub := EMPTY_HUB)
  }

  function Run(events: seq<Event>): World {
    if events == [] then World(EMPTY_HUB, map[]) else Next(Run(events[..|events| - 1]), events[|events| - 1])
  }

  // ---------------------------------------------------------------- who is connected, as whom

  /** The session has registered, and neither unregistered nor been shut down since. */
  function ConnectedBy(events: seq<Event>, id: SessId): bool {
    events != [] &&
    match events[|events| - 1]
    case Add(s) => s == id || ConnectedBy(events[..|events| - 1], id)
    case Remove(s) => s != id && ConnectedBy(events[..|events| - 1], id)
    case CloseAll => false
    case Login(_, _) => ConnectedBy(events[..|events| - 1], id)
  }

  /** The user of its last login. */
  function LoggedInAs(events: seq<Event>, id: SessId): Option<UserId> {
    if events == [] then None
    else
      match events[|events| - 1]
      case Login(s, user) => if s == id then Some(user) else LoggedInAs(events[..|events| - 1], id)
      case _ => LoggedInAs(events[..|events| - 1], id)
  }

  lemma {:induction false} SessionsToldBy(events: seq<Event>, id: SessId)
    ensures id in Run(events).hub.sessions <==> ConnectedBy(events, id)
    ensures UserOf(Run(events), id) == LoggedInAs(events, id)
  {
    if events != [] {
      SessionsToldBy(events[..|events| - 1], id);
    }
  }

  /** After a shutdown nobody is connected, listed or online. */
  lemma ShutDown(events: seq<Event>)
    ensures var h := Run(events + [CloseAll]).hub; h.sessions == {} && h.index == map[] && h.online == {}
  {
    assert (events + [CloseAll])[..|events|] == events;
  }

  ghost predicate OnlineIsListed(h: HubState) {
    && h.online == h.index.Keys
    && forall user :: user in h.index ==> h.index[user] != []
  }

  /** Whatever happens, in whatever order: online is exactly having a non-empty list. */
  lemma {:induction false} AlwaysOnlineIsListed(events: seq<Event>)
    ensures OnlineIsListed(Run(events).hub)
  {
    if events != [] {
      AlwaysOnlineIsListed(events[..|events| - 1]);
    }
  }

  function Copies(h: HubState, user: UserId, id: SessId): nat {
    Count(List(h, user), id)
  }

  /** A connected session that is logged in as the user. */
  predicate Owns(w: World, user: UserId, id: SessId) {
    id in w.hub.sessions && UserOf(w, id) == Some(user)
  }

  function Due(w: World, user: UserId, id: SessId): nat {
    if Owns(w, user, id) then 1 else 0
  }

  /** userSessions is the inverse of userID: each session once, and in its own user's list only. */
  ghost predicate Exact(w: World) {
    forall user, id :: Copies(w.hub, user, id) == Due(w, user, id)
  }

  /** Register before login, and never log in as the user one already is. */
  predicate Orderly(w: World, e: Event) {
    match e
    case Add(id) => id in w.hub.sessions ==> UserOf(w, id) == None
    case Login(id, user) => id in w.hub.sessions && UserOf(w, id) != Some(user)
    case _ => true
  }

  lemma ListedCopies(h: HubState, user: UserId, id: SessId, u: UserId, s: SessId)
    ensures Copies(Listed(h, user, id), u, s) == Copies(h, u, s) + if u == user && s == id then 1 else 0
  {
    CountAppend(List(h, user), id, s);
  }

  lemma UnlistedCopies(h: HubState, user: UserId, id: SessId, u: UserId, s: SessId)
    ensures Copies(Unlisted(h, user, id), u, s)
         == if u == user && s == id && Copies(h, u, s) > 0 then Copies(h, u, s) - 1 else Copies(h, u, s)
  {
    WithoutFirstCounts(List(h, user), id, s);
  }

  lemma AddCopies(w: World, id: SessId, u: UserId, s: SessId)
    requires Copies(w.hub, u, s) == Due(w, u, s)
    ensures Copies(Next(w, Add(id)).hub, u, s) == if Owns(w, u, s) && s == id then 2 else Due(Next(w, Add(id)), u, s)
  {
    var h := w.hub.(sessions := w.hub.sessions + {id});
    assert Copies(h, u, s) == Copies(w.hub, u, s);
    if id in w.users {
      ListedCopies(h, w.users[id], id, u, s);
    }
  }

  lemma LoginCopies(w: World, id: SessId, user: UserId, u: UserId, s: SessId)
    requires Copies(w.hub, u, s) == Due(w, u, s)
    ensures var after := Next(w, Login(id, user));
            Copies(after.hub, u, s) == if u == user && s == id then Due(w, u, s) + 1 else Due(after, u, s)
  {
    var was := UserOf(w, id);
    var h := if was.Some? && was.value != user then Unlisted(w.hub, was.value, id) else w.hub;
    if was.Some? && was.value != user {
      UnlistedCopies(w.hub, was.value, id, u, s);
    }
    ListedCopies(h, user, id, u, s);
  }

  lemma RemoveCopies(w: World, id: SessId, u: UserId, s: SessId)
    requires Copies(w.hub, u, s) == Due(w, u, s)
    ensures Copies(Next(w, Remove(id)).hub, u, s) == Due(Next(w, Remove(id)), u, s)
  {
    var h := w.hub.(sessions := w.hub.sessions - {id});
    assert Copies(h, u, s) == Copies(w.hub, u, s);
    if id in w.users {
      UnlistedCopies(h, w.users[id], id, u, s);
    }
  }

  lemma OrderlyCopies(w: World, e: Event, u: UserId, s: SessId)
    requires Copies(w.hub, u, s) == Due(w, u, s) && Orderly(w, e)
    ensures Copies(Next(w, e).hub, u, s) == Due(Next(w, e), u, s)
  {
    match e
    case Add(id) => AddCopies(w, id, u, s);
    case Login(id, user) => LoginCopies(w, id, user, u, s);
    case Remove(id) => RemoveCopies(w, id, u, s);
    case CloseAll =>
  }

  lemma OrderlyStep(w: World, e: Event)
    requires Exact(w) && Orderly(w, e)
    ensures Exact(Next(w, e))
  {
    forall u, s ensures Copies(Next(w, e).hub, u, s) == Due(Next(w, e), u, s) {
      assert Copies(w.hub, u, s) == Due(w, u, s);
      OrderlyCopies(w, e, u, s);
    }
  }

  /** The session that a disorderly step is about ends up listed once too often. */
  lemma DisorderlyStep(w: World, e: Event)
    requires Exact(w) && !Orderly(w, e)
    ensures !Exact(Next(w, e))
  {
    var u := if e.Add? then w.users[e.id] else e.user;
    assert Copies(w.hub, u, e.id) == Due(w, u, e.id);
    if e.Add? {
      AddCopies(w, e.id, u, e.id);
    } else {
      LoginCopies(w, e.id, u, u, e.id);
    }
    assert Copies(Next(w, e).hub, u, e.id) != Due(Next(w, e), u, e.id);
  }

  /** A step keeps the index exact precisely when it is orderly. */
  lemma StepExact(w: World, e: Event)
    requires Exact(w)
    ensures Exact(Next(w, e)) <==> Orderly(w, e)
  {
    if Orderly(w, e) {
      OrderlyStep(w, e);
    } else {
      DisorderlyStep(w, e);
    }
  }

  ghost predicate OrderlyRun(events: seq<Event>) {
    events == [] || (OrderlyRun(events[..|events| - 1]) && Orderly(Run(events[..|events| - 1]), events[|events| - 1]))
  }

  lemma {:induction false} OrderlyRunsAreExact(events: seq<Event>)
    requires OrderlyRun(events)
    ensures Exact(Run(events))
  {
    if events != [] {
      OrderlyRunsAreExact(events[..|events| - 1]);
      StepExact(Run(events[..|events| - 1]), events[|events| - 1]);
    }
  }

  lemma OnlineMeansConnected(w: World, user: UserId)
    requires Exact(w) && OnlineIsListed(w.hub)
    ensures user in w.hub.online <==> exists id :: Owns(w, user, id)
  {
    if user in w.hub.online {
      var id := w.hub.index[user][0];
      CountedIsIn(List(w.hub, user), id);
      assert Copies(w.hub, user, id) == Due(w, user, id);
      assert Owns(w, user, id);
    }
    if id :| Owns(w, user, id) {
      assert Copies(w.hub, user, id) == 1;
    }
  }

  /** After an orderly run the user is online exactly while one of the user's sessions is connected. */
  lemma OnlineIffConnected(events: seq<Event>, user: UserId)
    requires OrderlyRun(events)
    ensures user in Run(events).hub.online <==> exists id :: Owns(Run(events), user, id)
  {
    OrderlyRunsAreExact(events);
    AlwaysOnlineIsListed(events);
    OnlineMeansConnected(Run(events), user);
  }

  ghost predicate OwnsOnly(w: World, user: UserId, id: SessId) {
    forall other :: Owns(w, user, other) ==> other == id
  }

  lemma RemoveOwner(w: World, id: SessId, user: UserId)
    requires Exact(w) && OnlineIsListed(w.hub) && Owns(w, user, id)
    ensures user !in Next(w, Remove(id)).hub.online <==> OwnsOnly(w, user, id)
  {
    var after := Next(w, Remove(id));
    StepExact(w, Remove(id));
    OnlineMeansConnected(after, user);
    assert after.hub.sessions == w.hub.sessions - {id} && after.users == w.users;
    if user in after.hub.online {
      var other :| Owns(after, user, other);
      assert Owns(w, user, other) && other != id;
    } else {
      forall other | Owns(w, user, other) ensures other == id {
        assert !Owns(after, user, other);
      }
    }
  }

  /** Unregistering a session takes its user offline exactly when it was the user's last. */
  lemma LastSessionLeaves(events: seq<Event>, id: SessId, user: UserId)
    requires OrderlyRun(events) && Owns(Run(events), user, id)
    ensures user !in Run(events + [Remove(id)]).hub.online <==> OwnsOnly(Run(events), user, id)
  {
    assert (events + [Remove(id)])[..|events|] == events;
    OrderlyRunsAreExact(events);
    AlwaysOnlineIsListed(events);
    RemoveOwner(Run(events), id, user);
  }

  /** After a second login as the same user the session is listed twice. */
  lemma DoubleLoginIsListedTwice(id: SessId, user: UserId)
    ensures Run([Add(id), Login(id, user), Login(id, user)])
         == World(HubState({id}, map[user := [id, id]], {user}), map[id := user])
  {
    var events := [Add(id), Login(id, user), Login(id, user)];
    assert events[..2] == [Add(id), Login(id, user)] && events[..2][..1] == [Add(id)];
    var one := World(HubState({id}, map[], {}), map[]);
    var two := World(HubState({id}, map[user := [id]], {user}), map[id := user]);
    assert Run([Add(id)]) == Next(Run([]), Add(id)) == one;
    assert List(one.hub, user) + [id] == [id] && List(two.hub, user) + [id] == [id, id];
    assert Run(events[..2]) == Next(one, Login(id, user)) == two;
  }

  /** The second entry is taken out by no later step of that session, so its user stays online. */
  lemma DoubleLoginStaysOnline(id: SessId, user: UserId)
    ensures var w := Run([Add(id), Login(id, user), Login(id, user), Remove(id)]);
            user in w.hub.online && w.hub.sessions == {} && List(w.hub, user) == [id]
  {
    var events := [Add(id), Login(id, user), Login(id, user), Remove(id)];
    assert events[..3] == [Add(id), Login(id, user), Login(id, user)];
    DoubleLoginIsListedTwice(id, user);
  }
}
