/**
 The head of a message, the JSON object in which edits, unsends and reactions leave their
 marks: the parts of store/messages.go that read or rewrite it.
 */
module Heads {
  import opened Prelude

  type Time = int
  type User = string
  type Emoji = string

  /** The fields the server writes after the message is sent, and all the others. */
  datatype Field = Reactions | EditCount | EditedAt | Unsent | Other(name: string)

  datatype Json =
    | Num(n: int)
    | Bool(b: bool)
    | Stamp(at: Time)
    | Str(s: string)
    | Arr(items: seq<Json>)
    | Obj(fields: map<string, Json>)

  type Head = map<Field, Json>

  /** COALESCE(head, '{}'). */
  function OrEmpty(head: Option<Head>): Head {
    match head case None => map[] case Some(h) => h
  }

  // ---------------------------------------------------------------- edits and unsends

  function CountOf(h: Head): int {
    if EditCount in h && h[EditCount].Num? then h[EditCount].n else 0
  }

  function Edited(h: Head, now: Time): Head {
    h + map[EditCount := Num(CountOf(h) + 1), EditedAt := Stamp(now)]
  }

  function MarkedUnsent(h: Head): Head {
    h + map[Unsent := Bool(true)]
  }

  // ---------------------------------------------------------------- reactions

  function ReactionsOf(h: Head): map<string, Json> {
    if Reactions in h && h[Reactions].Obj? then h[Reactions].fields else map[]
  }

  function UsersOf(reactions: map<string, Json>, emoji: Emoji): seq<Json> {
    if emoji in reactions && reactions[emoji].Arr? then reactions[emoji].items else []
  }

  function Toggled(users: seq<Json>, user: Json): seq<Json> {
    if user in users then Without(users, user) else users + [user]
  }

  /** The loop of AddReaction over one emoji's users. */
  method ToggleUser(users: seq<Json>, user: Json) returns (newUsers: seq<Json>)
    ensures newUsers == Toggled(users, user)
  {
    var found := false;
    newUsers := [];
    for i := 0 to |users|
      invariant newUsers == Without(users[..i], user)
      invariant found == (user in users[..i])
    {
      assert users[..i + 1][..i] == users[..i];
      if users[i] == user {
        found := true;
      } else {
        newUsers := newUsers + [users[i]];
      }
    }
    assert users[..|users|] == users;
    if !found {
      newUsers := newUsers + [user];
    }
  }

  /** The new reactions object once an emoji's users are known: empty lists are dropped. */
  function Stored(reactions: map<string, Json>, emoji: Emoji, users: seq<Json>): map<string, Json> {
    if users == [] then reactions - {emoji} else reactions[emoji := Arr(users)]
  }

  /** The new head once its reactions are known: an empty object is dropped. */
  function WithReactions(h: Head, reactions: map<string, Json>): Head {
    if reactions == map[] then h - {Reactions} else h[Reactions := Obj(reactions)]
  }

  function Reacted(h: Head, user: User, emoji: Emoji): Head {
    var reactions := ReactionsOf(h);
    WithReactions(h, Stored(reactions, emoji, Toggled(UsersOf(reactions, emoji), Str(user))))
  }

  /** What AddReaction makes of the head it has locked. */
  method ReactToHead(h: Head, user: User, emoji: Emoji) returns (newHead: Head)
    ensures newHead == Reacted(h, user, emoji)
  {
    var reactions := map[];
    if Reactions in h && h[Reactions].Obj? {
      reactions := h[Reactions].fields;
    }
    var emojiUsers := [];
    if emoji in reactions && reactions[emoji].Arr? {
      emojiUsers := reactions[emoji].items;
    }
    var newUsers := ToggleUser(emojiUsers, Str(user));
    if |newUsers| == 0 {
      reactions := reactions - {emoji};
    } else {
      reactions := reactions[emoji := Arr(newUsers)];
    }
    newHead := h;
    if |reactions| == 0 {
      newHead := newHead - {Reactions};
    } else {
      newHead := newHead[Reactions := Obj(reactions)];
    }
  }

  // ---------------------------------------------------------------- the shape of the reactions

  predicate Has(h: Head, user: User, emoji: Emoji) {
    Str(user) in UsersOf(ReactionsOf(h), emoji)
  }

  /** Each user at most once, and no empty list. */
  ghost predicate ListOk(list: Json) {
    list.Arr? && list.items != [] && NoTwice(list.items)
  }

  ghost predicate NoTwice(users: seq<Json>) {
    users == [] || (users[|users| - 1] !in users[..|users| - 1] && NoTwice(users[..|users| - 1]))
  }

  ghost predicate ReactionsOk(reactions: map<string, Json>) {
    forall emoji :: emoji in reactions ==> ListOk(reactions[emoji])
  }

  /** The reactions field is absent, or a non-empty object of proper lists. */
  ghost predicate HeadOk(h: Head) {
    Reactions in h ==> h[Reactions].Obj? && h[Reactions].fields != map[] && ReactionsOk(h[Reactions].fields)
  }

  lemma {:induction false} WithoutKeeps(users: seq<Json>, user: Json, other: Json)
    ensures other in Without(users, user) <==> other in users && other != user
    ensures NoTwice(users) ==> NoTwice(Without(users, user))
  {
    if users != [] {
      var init, last := users[..|users| - 1], users[|users| - 1];
      WithoutKeeps(init, user, other);
      WithoutKeeps(init, user, last);
      assert users == init + [last];
      assert (Without(init, user) + [last])[..|Without(init, user)|] == Without(init, user);
    }
  }

  lemma ToggledKeeps(users: seq<Json>, user: Json, other: Json)
    ensures other in Toggled(users, user) <==> (other in users) != (other == user)
    ensures NoTwice(users) ==> NoTwice(Toggled(users, user))
  {
    WithoutKeeps(users, user, other);
    assert (users + [user])[..|users|] == users;
  }

  /** One reaction flips one user under one emoji, and leaves every other field alone. */
  lemma ReactedFlips(h: Head, user: User, emoji: Emoji, user': User, emoji': Emoji)
    ensures Has(Reacted(h, user, emoji), user', emoji') <==> Has(h, user', emoji') != (user == user' && emoji == emoji')
    ensures HeadOk(h) ==> HeadOk(Reacted(h, user, emoji))
    ensures Reacted(h, user, emoji) - {Reactions} == h - {Reactions}
  {
    var users := UsersOf(ReactionsOf(h), emoji);
    ToggledKeeps(users, Str(user), Str(user'));
    var stored := Stored(ReactionsOf(h), emoji, Toggled(users, Str(user)));
    assert ReactionsOf(Reacted(h, user, emoji)) == stored;
    assert UsersOf(stored, emoji) == Toggled(users, Str(user));
  }
}
