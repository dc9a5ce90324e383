# mvChat2: a verified model

mvChat2 is a chat server written in Go with a TypeScript SDK. This project states in Dafny what
its stateful parts do and proves what a caller may rely on: the conversation store and the
handlers that drive it, the hub and its routing between nodes, the rate limiter, the token and
base64 codecs, the grapheme index, and the tables that the SDK keeps on the client.

Where the code changes things step by step, the model is a class or a method with a loop, tied
by its `ensures` to a function on values; where requests or callbacks interleave, it is a step
system over those functions. The lemmas then speak about every sequence of steps. What the tables
hold after a run is also told from the run alone, without those functions: `MessageLog`,
`MembershipLog` and `InviteLog` name the request that made a row, and the ones that changed it.

| file | what it models |
|---|---|
| `Prelude.dfy` | options, maximum, bytes; counting in a list and taking an entry out |
| `RateLimit.dfy`, `RateLimitRuns.dfy` | the sliding-window limiter on shared slices; its refinement of a limiter that forgets nothing |
| `Uuid.dfy` | ids, their canonical text (section 4 of RFC 9562), their order |
| `Conversations.dfy`, `Membership.dfy`, `MembershipLog.dfy` | conversation, DM and member tables; requests interleaved between check and write; the same read off the history of a run |
| `Heads.dfy`, `Messages.dfy` | a message's head, the message tables, and the store's methods on them |
| `RowRace.dfy`, `EditLimit.dfy` | sessions editing, reacting to and unsending one message; the edit limit |
| `ReactionMirror.dfy`, `ReactionOrder.dfy` | the client's reducer of reactions against the server; the order of the users under an emoji |
| `MessageRuns.dfy`, `MessageLog.dfy`, `ReadLoop.dfy` | sends, deletions, reads and expiry over all conversations; the tables read off their history; the loop that records reads |
| `HistoryWalk.dfy`, `MessageList.dfy` | paging back through a conversation; the client's list |
| `Hub.dfy`, `Cluster.dfy` | the hub's indexes; sends across nodes |
| `Rfc4648.dfy`, `SdkBase64.dfy`, `InviteToken.dfy` | base64 of sections 4 and 5 of RFC 4648; the SDK's byte loops; invite tokens |
| `Graphemes.dfy` | the grapheme offset table |
| `PendingRequests.dfy`, `Receipts.dfy` | the SDK's request table; read receipts kept twice |
| `Invites.dfy`, `InviteLog.dfy`, `Redemption.dfy`, `RedemptionRuns.dfy` | invites and contacts, and both read off the history of a run; redeeming an invite while other requests go on; what a redemption is worth |

Inputs that the code takes from outside are parameters: clocks, generated ids and entropy,
answers from Redis, which statement the database fails, the HMAC (any function to 32 bytes) and
the grapheme segmenter (any function that cuts a non-empty prefix). One SQL statement or
transaction is one atomic step. A session is taken to hear of reactions in the order of their
commits; the broadcast follows the commit without a lock, so that is an assumption.

## Where the code differs from its own promises

- `AddRoomMember` is documented as a no-op for an existing member (store/conversations.go:469-470).
  It revives the row and overwrites its role, so inviting a room's owner makes the owner a plain
  member. `Conversations.AddMemberChanges` gives the exact condition under which nothing but
  `updated_at` changes. In every run a room keeps its owner's role exactly as long as the owner has
  not invited themselves (`Membership.OwnerRowStays`); `Membership.InvitedOwnerIsDemoted` is a run of
  five steps that leaves a room without an owner.
- The limit of ten edits is checked before the write, so K sessions of the author can reach 9 + K
  and no more (`EditLimit.EditCountBound`, `EditLimit.BoundIsReached`). The limit holds in every
  schedule exactly when the author has at most one session (`EditLimit.LimitHoldsIff`).
- A login as the user one already is, or a registration after login, puts a session on its user's
  list twice, and the second entry outlives the session (`Hub.StepExact`,
  `Hub.DoubleLoginStaysOnline`). Until then the session gets every message twice
  (`Cluster.DoubleLoginCopiedTwice`).
- `handleRead` asks for as many messages as the sequence number says, which the store cuts to 50
  once it passes 100; older unread messages then get no read row (`MessageRuns.ReadCoverage` gives
  the condition, `MessageRuns.LongHistoryIsCut` and `ReadLoop.OldMessagesStayUnread` the runs).
- `SendToUsers` sends twice to a user named twice (`Cluster.NamedTwiceCopiedTwice`).
- A session is told of every reaction but its own, and the SDK does not add those to the list of
  the session that makes them. A client that does not throw (see below) therefore shows the server's
  users under every emoji if and only if its own session has made each reaction an even number of times
  (`ReactionMirror.MirrorFollowsServer`, `ReactionMirror.OwnReactionIsUnseen`), and shows them in the
  server's order if and only if its own session has also not decided who came last
  (`ReactionOrder.SameListsIff`, `ReactionOrder.OrderCanDiffer`).
- The client's reactions are a plain object, so a reaction with the name of a member of
  Object.prototype ("constructor", "toString" and ten more) that is no key yet makes the reducer
  throw, while the server has stored it. From the sending of a message on that happens if and only
  if another session reacts with such a name (`ReactionMirror.MirrorsOne`,
  `ReactionMirror.TripsOnInheritedName`, `ReactionMirror.ConstructorThrows`).
- `loadMore` is to fetch one page at a time. Two calls before React renders again use one cursor and
  list a page twice (`MessageList.TwoCallsListTwice`), and a list that unsend events have emptied
  does not ask again until a message arrives, whatever `hasMore` says (`MessageList.Hook.LoadMore`).
- `RedeemInviteCode` is to use up every invite to the address, and it does unless its own invite
  is taken between its lookup and its UseInvite. What happens then depends on whether the
  driver's "no rows" error is `sql.ErrNoRows`, with which store/invites.go:170 compares it; every
  other file of the store compares with the driver's own value. Both answers are modelled
  (`Redemption.Env.noRowIsNil`), and each has a run that shows its fault and the exact condition:
  if the error is another one, the call ends there and leaves the other invites open
  (`RedemptionRuns.NothingLeftIff`, `RedemptionRuns.LostRaceLeavesInvites`); if it is that one,
  the call goes on and connects the user although the invite is somebody else's
  (`RedemptionRuns.GoesOnWithoutInvite`, `RedemptionRuns.LoserIsConnected`).
- The decoding loop of the SDK stands in for `atob`, which takes text with or without its padding. Of
  text without it the loop makes the string and NULs after it, unless there is none to leave out
  (`SdkBase64.UnpaddedDecodes`, `SdkBase64.UnpaddedIff`).
- CreateDM is to return the existing conversation if there is one. If another request makes it
  between CreateDM's SELECT and its INSERT, the INSERT fails, and `handleRedeemInviteExisting` replies
  with an error although the invite is used and the DM is there (`RedemptionRuns.RacedExisting`,
  `RedemptionRuns.MeetingIsAnError`).

## Model

| member | source | states |
|---|---|---|
| RateLimit.Compact | ratelimit/ratelimit.go:74-79 | filtering a slice into its own backing array leaves exactly the times inside the window, in order |
| RateLimit.Limiter.constructor | ratelimit/ratelimit.go:44-57 | an empty table, and ten windows as the default cleanup interval |
| RateLimit.Limiter.Cleanup | ratelimit/ratelimit.go:96-110 | every key's list is filtered, keys left with nothing disappear, whatever the order of the sweep |
| RateLimit.Limiter.Allow | ratelimit/ratelimit.go:61-92 | the whole new table and the answer of one request, although slices share arrays with older versions of themselves |
| RateLimit.Limiter.Remaining | ratelimit/ratelimit.go:113-133 | what is left of the limit, never negative, without changing anything |
| RateLimit.Limiter.Reset | ratelimit/ratelimit.go:136-140 | the key's list is forgotten and no other is touched |
| RateLimitRuns.AnswersLikeTheFullLog | ratelimit/ratelimit.go:61-140 | over every run with a clock that does not go back, all answers equal those of a limiter that remembers every accepted request |
| RateLimitRuns.LogIsAccepted | ratelimit/ratelimit.go:82-91 | the reference log of a key is exactly the accepted requests since its last Reset |
| RateLimitRuns.PacedWindow | ratelimit/ratelimit.go:69-91 | times each admitted into a window with room leave no window over-full, wherever it ends |
| RateLimitRuns.WindowBound | ratelimit/ratelimit.go:61-92 | every interval (t - window, t] holds at most `limit` accepted requests of a key since its Reset |
| RateLimitRuns.RefusedOnlyWhenFull | ratelimit/ratelimit.go:82-85 | a request is refused if and only if the interval that ends with it already holds the limit |
| RateLimitRuns.StoredListsStayShort | ratelimit/ratelimit.go:74-91 | every stored list stays sorted and no longer than the limit |
| RateLimitRuns.RemainingTells | ratelimit/ratelimit.go:113-133 | over every run Remaining is the limit less the accepted requests of the key inside the window, and 0 when they fill it |
| RateLimitRuns.NothingOldIsKept | ratelimit/ratelimit.go:61-110 | right after any request the limiter holds, for no key, a time older than a window and a cleanup interval |
| RateLimitRuns.IdleKeysGo | ratelimit/ratelimit.go:96-110 | with a limit of at least one, a key that is still in the table after a request has an accepted request no older than that |
| Uuid.TextOrder | store/conversations.go:74-78 | comparing the canonical texts of two ids orders them exactly as comparing their bytes |
| Uuid.TextShape | store/conversations.go:74-78 | the canonical text is the bytes in lowercase hexadecimal, cut into groups of 8, 4, 4, 4 and 12 digits |
| Conversations.OrderedMeetsCheck | store/conversations.go:74-78 | the swap gives the same pair for both argument orders, and it meets the table's CHECK if and only if the users differ |
| Conversations.AddMemberChanges | store/conversations.go:471-482 | AddRoomMember leaves the tables alone, updated_at apart, if and only if the user is an active member with that very role; afterwards the user has the role |
| Conversations.Store.CreateDM | store/conversations.go:73-143 | the existing conversation and no change, or one new conversation with its participants row and two member rows, or the constraint that refused it and no change |
| Conversations.Store.FindDM | store/conversations.go:80-94 | the conversation of the pair, if there is one |
| Conversations.Store.InsertDM | store/conversations.go:96-137 | one new conversation with its participants row and two member rows, or the constraint that refused it and no change |
| Conversations.Store.CreateRoom | store/conversations.go:146-187 | one new room with its owner row, or no change |
| Conversations.Store.GetMemberRole | store/conversations.go:496-506 | the role of an active row, none otherwise |
| Conversations.Store.AddRoomMember | store/conversations.go:471-482 | a new row, or the existing row revived with the new role and its receipts kept |
| Conversations.Store.RemoveMember | store/conversations.go:485-492 | the row is marked deleted and nothing else changes |
| Conversations.Store.UpdateReadSeq | store/conversations.go:386-392 | read_seq is assigned and recv_seq raised to it |
| Conversations.Store.UpdateRecvSeq | store/conversations.go:396-402 | recv_seq is raised and never lowered |
| Conversations.Store.UpdateClearSeq | store/conversations.go:406-412 | clear_seq is assigned |
| Membership.Reachable | handlers_conv.go:231-401 | every interleaving of checks and writes keeps: every row belongs to a conversation, DMs have their pair and both rows, room rows are the owner's or invited, pending removals never aim at an owner |
| Membership.OneDmPerPair | store/conversations.go:73-143 | any two CreateDM answers for the same two users, in either order, name the same conversation, however their lookups and inserts interleave |
| Membership.DmRows | store/conversations.go:123-137 | the member rows of a DM are exactly its two distinct participants, both with role member |
| Membership.RoomRows | handlers_conv.go:231-401 | a room's owner row is its owner_id's and active, every member row was written by an invite from that owner, and admin never occurs |
| Membership.InvitedOwnerIsDemoted | handlers_conv.go:243-270 | an owner who invites themselves is a plain member afterwards, and the room has no owner row |
| Membership.OwnerRowStays | store/conversations.go:471-492 | in every run a room's owner has a row in it, with the role of owner if and only if the owner was never invited by themselves |
| Membership.ReceiptsAdvance | store/conversations.go:386-402 | read_seq <= recv_seq in every reachable state, and no step lowers recv_seq or loses the row |
| MembershipLog.RequestsRest | handlers_conv.go:231-401 | in every run a request that is about to write has passed its checks in their order: an inviter acted as owner or admin and the target was registered, a leaver was active and no owner, whoever is removed ranked below the one who removes them |
| MembershipLog.InviteAlone | handlers_conv.go:243-270 | an invite with nothing in between makes the target an active member if and only if the inviter acts as owner or admin and the target is registered, and changes nothing otherwise |
| MembershipLog.LeaveAlone | handlers_conv.go:292-318 | leaving with nothing in between makes the own row inactive if and only if it is an active row that is no owner's |
| MembershipLog.KickAlone | handlers_conv.go:334-383 | a removal with nothing in between makes the target's row inactive if and only if the owner removes a member or an admin, or an admin a member |
| MembershipLog.DmAlone | store/conversations.go:73-143 | CreateDM with nothing in between answers the conversation there is, or makes one with an active row for each of two different registered users, or changes nothing |
| MembershipLog.RowsToldBy | store/conversations.go:386-492 | in every run each member row, with its role, whether it is active, and its three numbers, is what the history says: made by a room, a DM or an invite, then changed by invites, removals, reads, receipts and clears only |
| MembershipLog.ClearStands | store/conversations.go:406-412 | a cleared row keeps that clear_seq through everything but another clear of the same user and conversation |
| MembershipLog.ClearedIsNotListed | handlers_conv.go:823-823 | until then no page fetched with the member's clear_seq holds a number up to it |
| Heads.ToggleUser | store/messages.go:245-261 | the filtering loop takes the user out wherever it is, or appends it when absent, keeping the order of the others |
| Heads.ReactToHead | store/messages.go:231-271 | the new head after one reaction, empty lists and an empty reactions object dropped |
| Heads.ToggledKeeps | store/messages.go:245-261 | a toggle flips exactly one user and keeps a duplicate-free list duplicate-free |
| Heads.ReactedFlips | store/messages.go:231-271 | a reaction flips one user under one emoji, keeps lists duplicate-free and non-empty, and leaves all other keys alone |
| Messages.Store.CreateMessage | store/messages.go:37-82 | the next number is taken and the row stored under it, or nothing changes (the view-once variant stores two more columns) |
| Messages.Store.GetMessages | store/messages.go:87-141 | the newest visible messages after clear_seq and below the cursor, descending, cut off only by the clamped limit |
| Messages.PageByColumns | store/messages.go:87-141 | by the columns: what is on a page is a row of the conversation above clear_seq and below the cursor, without a deletion and without an expired read of the user; such a row that is missing lies below a full page |
| Messages.Store.EditMessage | store/messages.go:163-172 | content, edit_count and edited_at change together, on a row that is not deleted, and nothing else does |
| Messages.Store.UnsendMessage | store/messages.go:176-184 | the row is marked deleted and unsent |
| Messages.Store.AddReaction | store/messages.go:210-287 | the head becomes the toggled head; the call fails without change on a missing row, and on an emoji with a NUL character, which jsonb does not hold |
| Messages.Store.DeleteMessageForUser | store/messages.go:198-206 | one more hidden pair, at most once |
| Messages.Store.InsertRead | store/messages.go:407-416 | the first read fixes its row, a later one changes nothing |
| Messages.Store.ExpireReadMessages | store/messages.go:445-458 | exactly the due rows become expired, none becomes unexpired |
| RowRace.LockStep | store/messages.go:210-287 | while a reaction holds the row lock its head stays current, and each step changes the row by at most one committed write |
| RowRace.Serial | store/messages.go:163-287 | in every interleaving the row equals the committed writes performed one at a time |
| RowRace.ReplayAccounts | store/messages.go:163-195 | after any writes edit_count is the number of edits before withdrawal, content is the last of them, foreign keys survive, reactions are well-formed |
| RowRace.ReplayReactions | store/messages.go:231-271 | a user is under an emoji if and only if the pair was toggled an odd number of times |
| RowRace.NoLostUpdate | store/messages.go:163-287 | both of these for every interleaving of sessions with the row lock |
| RowRace.WithdrawnContent | store/messages.go:163-195 | once deleted_at is set the content never changes again |
| RowRace.ReplayStamps | store/messages.go:163-287 | after any writes updated_at is the time of the last write, deleted_at that of the last withdrawal, edited_at that of the last edit before any withdrawal, and the unsent mark is there if and only if the message was unsent |
| RowRace.ReactionAlone | store/messages.go:210-287 | a reaction with nothing in between is stored with its time, unless its emoji has a NUL, which leaves the row as it was |
| RowRace.HolderCommits | store/messages.go:210-287 | once a reaction has locked the row nobody else writes to it, and it is committed on the head it read, whatever other sessions try meanwhile |
| RowRace.WithdrawalAlone | store/messages.go:176-195 | an unsend and a deletion take effect at once unless a reaction holds the row lock |
| RowRace.CommittedReaction | store/messages.go:210-287 | every reaction that is committed, in any interleaving, is by the user of the session that made it, and has no NUL |
| EditLimit.EditCountBound | handlers_conv.go:1130-1150 | with K sessions of the author, edit_count never exceeds 9 + K in any interleaving |
| EditLimit.BoundIsReached | handlers_conv.go:1130-1150 | whoever else is logged in, some schedule reaches 9 + K if the author has K > 0 sessions |
| EditLimit.LimitHoldsIff | handlers_conv.go:1130-1150 | for every assignment of sessions to users, ten edits are never exceeded if and only if the author has at most one session |
| EditLimit.EditsHaveGrounds | handlers_conv.go:1118-1137 | in every interleaving an edit that is written was asked for by a session of the author no later than 15 minutes after the sending, and passed a later check that found fewer than ten edits |
| EditLimit.EditAlone | handlers_conv.go:1118-1150 | an edit with nothing in between is written if and only if the session is the author's, the message at most 15 minutes old and edited fewer than ten times, and it changes a withdrawn message in nothing |
| ReactionMirror.HandleReact | sdk/src/hooks/useMessages.ts:94-114 | what the copy-and-toggle code makes of a message's head as the server stores it, or that it throws |
| ReactionMirror.MirrorsOne | sdk/src/hooks/useMessages.ts:94-114 | one react event does to a head exactly what one AddReaction does if and only if the emoji is a key already or no name inherited from Object.prototype; otherwise it throws |
| ReactionMirror.ConstructorThrows | sdk/src/hooks/useMessages.ts:100-100 | the first reaction with "constructor" is stored by the server and makes the client throw |
| ReactionMirror.ThrowsOnTwelve | sdk/src/hooks/useMessages.ts:94-114 | on a message without reactions the client throws for twelve names, each of them given, and for no other |
| ReactionMirror.MirrorFollowsServer | sdk/src/hooks/useMessages.ts:90-120 | a client that hears of all reactions but its own session's throws if and only if one it hears of has an inherited name that was no key after those it heard before; otherwise it shows the server's users under every emoji if and only if its own session made each reaction an even number of times, and if it made none the lists are the server's, order and absence of the field included |
| ReactionMirror.OwnReactionIsUnseen | handlers_conv.go:1355-1362 | the session that reacts shows nothing of it, although the server has it |
| ReactionMirror.TripsOnInheritedName | sdk/src/hooks/useMessages.ts:100-100 | from the sending of a message on the client throws if and only if another session reacts with an inherited name |
| ReactionMirror.MirrorFollowsRace | handlers_conv.go:1341-1362 | the same for every interleaving of sessions on the server, where a session reacts as one user |
| ReactionOrder.ReplayRanked | store/messages.go:245-261 | the users under an emoji stand in the order of their latest reactions |
| ReactionOrder.SameListsIff | sdk/src/hooks/useMessages.ts:94-114 | a client that followed a message from its sending has the server's lists, in order, if and only if its own session made each reaction an even number of times and of any two users left under an emoji the same one reacted last with and without that session's reactions |
| ReactionOrder.OrderCanDiffer | handlers_conv.go:1355-1362 | a user who takes a reaction back and makes it again in another session sees the old order there |
| MessageRuns.SendSucceeds | store/messages.go:47-66 | when the numbers are exactly 1 .. last_seq the next one is free, and taking it keeps that so |
| MessageRuns.Reachable | store/messages.go:47-66 | in every reachable state the numbers of a conversation are exactly 1 .. last_seq and no read row belongs to a sender |
| MessageRuns.LaterExtends | store/messages.go:37-458 | later states never take back a number, a sender, a deletion or a first read |
| MessageRuns.HiddenForGood | store/messages.go:197-206 | a message deleted for a user, or expired for them, is on no later page of theirs |
| MessageRuns.FirstReadWins | store/messages.go:407-416 | the first read fixes read_at and expires_at whatever TTL changes and reads follow |
| MessageRuns.ExpiredWasDue | store/messages.go:445-458 | a row is expired only if a sweep at or after its expires_at took place |
| MessageRuns.OwnMessageStays | store/messages.go:392-395 | a sender's own message never expires for them |
| MessageLog.ConvsToldBy | store/messages.go:47-66 | in every run last_seq is how many messages the conversation has taken, and its TTL the one set last |
| MessageLog.RowsToldBy | store/messages.go:37-195 | in every run the row under a number is the message that was sent as that one, with the writes to it since, in their order, and there are no other rows |
| MessageLog.DeletionsToldBy | store/messages.go:198-206 | in every run a message is deleted for a user if and only if the user deleted it after it was sent |
| MessageLog.ReadsToldBy | store/messages.go:392-458 | in every run a read row is that of the first read by somebody else than the sender, and it is expired if and only if a sweep came at or after its expiry |
| MessageLog.PagesToldBy | store/messages.go:87-141 | what a page holds, and what it may lack, is told by these alone |
| ReadLoop.RecordMessageRead | store/messages.go:373-424 | nothing for the sender; otherwise the expiry is computed from what the SELECT saw, with the view-once TTL before the conversation's, and the row inserted unless there is one by then; nothing where a statement fails |
| ReadLoop.HandleRead | handlers_conv.go:1429-1445 | the page it works on and the tables after its loop, with other requests before every statement and any statement failing |
| ReadLoop.EveryReadIsRecorded | handlers_conv.go:1432-1445 | whatever the others do, each message of the page that another user sent has a read row of this reader at the end, unless a statement of its own turn failed |
| ReadLoop.EarlierReadsStay | store/messages.go:407-416 | no read that was recorded before is changed by the loop |
| ReadLoop.ReadsExactly | handlers_conv.go:1432-1445 | left alone, these rows, and no others, are the new ones, each with the time of its turn and the expiry from that time |
| ReadLoop.ReadExpiry | store/messages.go:397-405 | left alone, a read expires that many seconds after it as a view-once message's own TTL says, whatever the conversation's; without one, as the conversation's says; and never without both |
| ReadLoop.ReadThenGone | store/messages.go:397-458 | followed on through any changes: the message is expired for its reader if and only if a sweep came at or after that moment, and then it is on no page of theirs |
| ReadLoop.OldMessagesStayUnread | handlers_conv.go:1434-1445 | after n > 100 messages of another user, reading message n leaves one of them without a read row |
| MessageRuns.PageCount | store/messages.go:87-141 | a descending page of visible numbers is complete if and only if it has as many as there are |
| MessageRuns.ReadCoverage | handlers_conv.go:1436-1436 | handleRead(seq) covers every unhidden message up to seq if and only if there are at most seq, or 50 once seq passes 100, of them |
| MessageRuns.LongHistoryIsCut | store/messages.go:87-96 | a new conversation with n > 100 messages from one sender: the page of GetMessages(n + 1, n) lacks one of them |
| HistoryWalk.PageNumbers | store/messages.go:87-141 | every number on a page is at least 1 and below the cursor, so a cursor is never the 0 that means no bound |
| HistoryWalk.WalkDescends | sdk/src/hooks/useMessages.ts:137-154 | a walk in which each fetch goes on where the last full page ended returns strictly descending numbers, so none twice, while everything else goes on |
| HistoryWalk.WalkTiles | sdk/src/hooks/useMessages.ts:137-154 | in a walk without gaps, pages fetched again included, the last fetch whose stretch contains a number has returned it if and only if the message was visible then |
| HistoryWalk.StraightShows | sdk/src/hooks/useMessages.ts:137-154 | what such a descending walk has returned is what its fetches show, each in its own stretch |
| HistoryWalk.AlwaysVisibleIsReturned | sdk/src/hooks/useMessages.ts:137-154 | a finished walk of that kind has returned every message that was visible at all its fetches |
| HistoryWalk.WalkEnds | sdk/src/hooks/useMessages.ts:148-148 | the number of fetches of such a walk is bounded by the conversation's size at the first one |
| MessageList.WalkGoesOn | sdk/src/hooks/useMessages.ts:137-154 | changes after the last fetch leave what was fetched a walk |
| MessageList.Hook.Load | sdk/src/hooks/useMessages.ts:28-44 | the list becomes the newest page, oldest first, and hasMore says whether that page was full |
| MessageList.Hook.LoadMore | sdk/src/hooks/useMessages.ts:137-146 | a call asks with the oldest entry that was rendered last, and does not ask when that rendering was loading, had no more or was empty |
| MessageList.Hook.LoadedMore | sdk/src/hooks/useMessages.ts:143-153 | the answer goes in front of the list as it is then, whatever other calls, arrivals and removals there were since the call |
| MessageList.Hook.HandleUnsend | sdk/src/hooks/useMessages.ts:78-88 | the message is taken out of the list |
| MessageList.Hook.HandleMessage | sdk/src/hooks/useMessages.ts:53-68 | the message goes to the end of the list |
| MessageList.OldestGoesOn | sdk/src/hooks/useMessages.ts:142-148 | the oldest entry is never below the cursor of the walk, so a call that uses it leaves no gap and repeats nothing, removals included |
| MessageList.ListedIffVisible | sdk/src/hooks/useMessages.ts:137-154 | while every call goes on from the oldest entry, a number down to the cursor is listed if and only if it was visible when it was fetched and was not taken out since |
| MessageList.OnePage | store/messages.go:87-141 | the tables, the cursor and the limit leave GetMessages one answer |
| MessageList.TwoCallsListTwice | sdk/src/hooks/useMessages.ts:138-148 | two calls with one cursor list a page twice |
| Hub.Hub.AddSession | hub.go:136-148 | the session is known, and on its user's list when it has a user |
| Hub.Hub.RemoveSession | hub.go:150-176 | the session is forgotten, its first entry cut out, its user taken offline when the list is empty, and that is announced |
| Hub.Hub.AuthenticateSession | hub.go:290-322 | the entry moves from the old user's list to the new one's; coming online is announced if and only if the user was not online |
| Hub.Hub.CloseAllSessions | hub.go:178-188 | all three maps are empty |
| Hub.Hub.SendToUser | hub.go:233-243 | a copy for every entry of the user's list, in order |
| Hub.Hub.SendToUsers | hub.go:247-287 | the local copies and the users handed to Redis, for any answers from Redis |
| Hub.DropFirst | hub.go:159-165 | the loop cuts out the first entry of the session and nothing else |
| Hub.AlwaysOnlineIsListed | hub.go:136-188 | in every run of register, login, unregister and shutdown, online[u] holds if and only if u has a non-empty list |
| Hub.StepExact | hub.go:136-316 | a step keeps userSessions the exact inverse of userID if and only if it is no registration after login and no login of an unknown session or as the same user |
| Hub.OrderlyRunsAreExact | hub.go:290-316 | in runs of such steps each session is listed once, in its own user's list only |
| Hub.OnlineIffConnected | hub.go:212-216 | after such a run a user is online if and only if one of the user's sessions is connected |
| Hub.LastSessionLeaves | hub.go:166-175 | unregistering a session takes its user offline if and only if it was the user's only one |
| Hub.SessionsToldBy | hub.go:136-188 | in every run a session is connected if and only if it was registered and neither unregistered nor shut down since, and it is logged in as the last user it authenticated as |
| Hub.ShutDown | hub.go:178-188 | after a shutdown nobody is connected, listed or online |
| Hub.DoubleLoginStaysOnline | hub.go:298-314 | a second login as the same user leaves the user online with no session after unregistering |
| Cluster.Listen | redis/redis.go:163-190 | a node delivers the messages of other nodes to its own sessions and skips its own |
| Cluster.CopiesOfOneSend | hub.go:247-287 | how many copies one SendToUsers call puts on a session anywhere, for any list of users, any hubs and any answers from Redis: the entries that the lists of the named users hold for it |
| Cluster.DoubleLoginCopiedTwice | hub.go:250-262 | a session that has logged in twice as the same user gets two copies |
| Cluster.CopiesWhereExact | hub.go:247-287 | where each session is listed once, under its own user, that is one copy for each time the user is named, or published if the session is elsewhere |
| Cluster.OneCopyEach | hub.go:247-287 | with distinct users the recipients are exactly the local sessions of the targets without skipSession and the sessions elsewhere of targets that have none here and are reported online; each gets one copy |
| Cluster.NothingComesBack | redis/redis.go:180-183 | no session of the calling node, skipSession included, gets a copy through Redis |
| Cluster.NamedTwiceCopiedTwice | hub.go:250-262 | a user named twice is sent two copies |
| Rfc4648.DecodeEncode | crypto/invite.go:93-100 | decoding the unpadded url-safe text of section 5 of RFC 4648 gives the bytes back |
| Rfc4648.DecodesIff | crypto/invite.go:100-103 | a text decodes if and only if it is digits of the url-safe alphabet and line breaks, and the digits are not one more than whole groups of four |
| Rfc4648.BreaksDoNotMatter | crypto/invite.go:100-103 | one line break more, anywhere, decodes to the same |
| Rfc4648.DecodedReencodes | crypto/invite.go:93-103 | what a text decodes to is encoded to that text again, but for its line breaks and the spare bits of its last digit |
| Rfc4648.DigitsOfTables | crypto/invite.go:93-93 | the digits are those of the tables of RFC 4648 (sections 4 and 5) |
| SdkBase64.Encode | sdk/src/client.ts:34-51 | the loop of base64Encode, tied to a function on strings |
| SdkBase64.Decode | sdk/src/client.ts:59-73 | the loop of base64Decode up to its UTF-8 pass, tied to a function on strings |
| SdkBase64.DecodedEncoded | sdk/src/client.ts:29-73 | on strings of char codes below 256 decoding undoes encoding, and the output has whole groups of alphabet characters |
| SdkBase64.RoundTrip | sdk/src/client.ts:61-73 | the same after any number of characters outside the alphabet were inserted, anywhere |
| SdkBase64.KeptInsert | sdk/src/client.ts:61-61 | one such character anywhere does not change what is decoded |
| SdkBase64.EncodedIsKept | sdk/src/client.ts:61-61 | the filter before decoding removes nothing from an encoder's output |
| SdkBase64.EncodedIsStandard | sdk/src/client.ts:29-52 | on bytes the output is the padded base64 of section 4 of RFC 4648 |
| SdkBase64.UnpaddedDecodes | sdk/src/client.ts:54-73 | the encoder's output without its padding decodes to the string and, after a last group of one or two characters, NULs that fill it up to three |
| SdkBase64.UnpaddedIff | sdk/src/client.ts:54-73 | so it decodes to the string if and only if there was no padding to leave out |
| InviteToken.Generate | crypto/invite.go:58-94 | the token is the encoding of entropy, stamp, length, the first 255 inviter bytes, all invitee bytes and the cut signature |
| InviteToken.ShortCode | crypto/invite.go:170-185 | always exactly ten characters |
| InviteToken.GeneratedVerifies | crypto/invite.go:98-165 | a generated token verifies within its TTL to the first 255 inviter bytes, the invitee and the second of its making, and for exactly that recipient |
| InviteToken.VerifiedIsSigned | crypto/invite.go:98-151 | a text verifies to some fields if and only if it decodes to those fields signed with the key and is young enough |
| InviteToken.TokenBytes | crypto/invite.go:58-94 | byte by byte: 8 of entropy, 4 of the second, the highest first, 1 that counts the inviter, at most 255 of the inviter, the invitee, and the first 16 that the MAC makes of all of these |
| InviteToken.VerifiedIsSealed | crypto/invite.go:98-119 | what is not called invalid decodes to at least 29 bytes, the last 16 of which are the first 16 that the MAC makes of all the bytes before them |
| InviteToken.SealedVerifies | crypto/invite.go:98-151 | such bytes verify to the fields cut out of them at their offsets, are expired by their age alone, and invalid only if they count more bytes for the inviter than there are |
| InviteToken.TamperedIsInvalid | crypto/invite.go:110-119 | the token of one payload with the signature of another is invalid, for every recipient, unless the MAC does not tell the two apart |
| InviteToken.ShortCodeBytes | crypto/invite.go:170-185 | the ten characters are digits of the first bytes that the MAC makes of the token: they decode to its first seven |
| Graphemes.NewGraphemes | irido/grapheme.go:17-38 | the loop builds the offsets of the clusters the segmenter cuts, ending with the byte length |
| Graphemes.BuiltWellFormed | irido/grapheme.go:17-46 | the table increases strictly from 0 to the byte length and has one entry more than there are clusters |
| Graphemes.AtIsCluster | irido/grapheme.go:79-84 | At(i) is the i-th cluster |
| Graphemes.PiecesRebuild | irido/grapheme.go:79-84 | the At pieces put together are the original string |
| Graphemes.SliceSplit | irido/grapheme.go:57-76 | Slice(a,b) + Slice(b,c) = Slice(a,c) for all a <= b <= c, out-of-range arguments included |
| Graphemes.GraphemeIndex | irido/grapheme.go:95-109 | the largest index whose offset is not past the byte offset, and 0 below the table |
| Graphemes.IndexUnique | irido/grapheme.go:95-109 | there is exactly one such index |
| Graphemes.IndexOfOffset | irido/grapheme.go:87-109 | GraphemeIndex(ByteOffset(i)) = i |
| Graphemes.TruncateKeepsClusters | irido/grapheme.go:112-118 | a truncated string keeps its first clusters whole, then has the suffix |
| PendingRequests.DecimalInjective | sdk/src/client.ts:387-387 | ids of different requests differ, so no entry of the table is overwritten |
| PendingRequests.DecimalNumber | sdk/src/client.ts:387-387 | the id is the request's number in decimal digits |
| PendingRequests.RequestTells | sdk/src/client.ts:376-408 | a request without a connection changes nothing; otherwise it is pending under a new id with a timer, or has failed to be sent and is rejected, with nothing pending more than before |
| PendingRequests.Client.Request | sdk/src/client.ts:376-408 | an id, a timer and an entry, or the immediate rejection without a connection, or the rejection when sending fails |
| PendingRequests.Client.HandleCtrl | sdk/src/client.ts:264-278 | the entry and its timer go and the promise is resolved for codes 200 to 399 and rejected otherwise; nothing for an unknown id |
| PendingRequests.Client.HandleTimeout | sdk/src/client.ts:392-396 | the entry goes and the promise is rejected |
| PendingRequests.Client.HandleClose | sdk/src/client.ts:332-340 | every pending promise is rejected in order, and no entry and no timer of theirs is left |
| PendingRequests.EveryRunIsSound | sdk/src/client.ts:264-408 | in every order of callbacks each issued id is pending once or settled once, never both, other ids neither, and timers run for exactly the pending ids |
| PendingRequests.LinkToldBy | sdk/src/client.ts:332-387 | in every run the client holds itself connected if and only if a connection was made and neither lost nor closed since, and its counter is the number of requests made over a connection |
| PendingRequests.CloseSettlesAll | sdk/src/client.ts:332-340 | after a close nothing is pending, no timer runs and every id ever issued is settled exactly once |
| PendingRequests.FirstFateWins | sdk/src/client.ts:264-408 | a pending request ends as the first response, timeout or close that concerns it says, once, whatever follows |
| PendingRequests.ResponseDecides | sdk/src/client.ts:264-278 | a response to a pending request resolves it if its code is 200 to 399 and refuses it otherwise, and that stays its only outcome, whatever follows |
| PendingRequests.LateResponse | sdk/src/client.ts:265-267 | a response changes nothing if and only if its id was never issued or is settled already |
| Receipts.ReceiptsHook.Refresh | sdk/src/hooks/useReadReceipts.ts:30-47 | both copies are rebuilt from the fetched list, or kept when the request fails |
| Receipts.ReceiptsHook.HandleRead | sdk/src/hooks/useReadReceipts.ts:55-73 | both copies raise the read mark of the user, in this conversation only |
| Receipts.ReceiptsHook.HandleRecv | sdk/src/hooks/useReadReceipts.ts:75-93 | both copies raise the received mark of the user, in this conversation only |
| Receipts.ReceiptsHook.GetReadersForSeq | sdk/src/hooks/useReadReceipts.ts:120-131 | the users of the Map, in its order, whose read mark reaches the message |
| Receipts.EventKeepsAgreement | sdk/src/hooks/useReadReceipts.ts:55-93 | an event keeps Map and array in agreement if and only if it is for another conversation, a known user or a number from 0 up |
| Receipts.CopiesAlwaysAgree | sdk/src/hooks/useReadReceipts.ts:30-93 | over every run of fetches and events of a server, Map and array agree entry by entry and in order |
| Receipts.ReadersAgree | sdk/src/hooks/useReadReceipts.ts:120-131 | the readers found in the Map are those the array shows, in the same order |
| Receipts.FoldIsHighest | sdk/src/hooks/useReadReceipts.ts:57-62 | after any events a mark is the largest of where it started and the events of its kind, and a user is known if and only if it was or was mentioned |
| Receipts.OrderAndRepetitionDoNotMatter | sdk/src/hooks/useReadReceipts.ts:55-93 | the same events reordered or repeated give the same function from users to marks |
| Invites.Store.CreateInviteCode | store/invites.go:30-45 | one new pending invite, or no change when the code is taken |
| Invites.Store.GetInviteByCode | store/invites.go:85-118 | the one pending invite with the code whose expiry lies ahead, if there is one |
| Invites.Store.UseInvite | store/invites.go:156-182 | a pending invite whose expiry lies ahead becomes used by the registered user, with the time; any other stays as it is |
| Invites.Store.RevokeInvite | store/invites.go:233-246 | a pending invite of the caller becomes revoked, and success says exactly that |
| Invites.Store.ExpireOldInvites | store/invites.go:249-259 | exactly the pending invites past their time become expired, and how many |
| Invites.Store.AddContact | store/contacts.go:22-51 | both directions are added, or neither |
| Invites.Store.RemoveContact | store/contacts.go:99-105 | both directions are removed |
| Invites.Store.GetPendingInvitesByEmail | store/contacts.go:108-129 | exactly the open invites to the address, each once |
| Invites.RunKeeps | store/invites.go:156-259 | over every run an invite that has left pending stays as it is, DMs stay, each pair has at most one, codes stay unique and contacts mutual |
| Invites.OneRedeemer | store/invites.go:156-182 | however many users race, at most one UseInvite of an invite takes effect, and used_by names that user for good |
| Invites.ContactsAreMutual | handlers_contact.go:48-51 | over every run contacts are symmetric and irreflexive |
| InviteLog.InvitesToldBy | store/invites.go:30-259 | in every run each invite is what its creation said until the first request that closed it: a use by a registered user before its expiry, a withdrawal by its author, or a sweep after its expiry |
| InviteLog.UsedInTime | store/invites.go:156-166 | in every run a used invite names a registered user and a time before its expiry |
| InviteLog.ContactsToldBy | store/contacts.go:22-105 | in every run two users are contacts if and only if a request added them, in either order, and none has removed them since |
| Redemption.Consume | store/invites.go:156-182 | one UseInvite with other requests before it: the database it leaves and whether the answer is a row, nil or an error |
| Redemption.ConnectInviter | handlers_invite.go:286-292 | CreateDM as its SELECT and its INSERT, then AddContact only if that succeeded, with other requests before each: the database left, and success exactly when the DM was found or made |
| Redemption.TakeInvite | handlers_invite.go:306-319 | UseInvite, CreateDM and AddContact for one invite: the database, the list of connected users and the error, for any environment |
| Redemption.RedeemOthers | handlers_invite.go:300-320 | the loop over the invites that were read, the call's own one skipped |
| Redemption.RedeemInviteCode | handlers_invite.go:258-323 | the whole call for any environment: which invite it uses, what it reads, the database it leaves, whom it returns, and when it returns an error |
| Redemption.HandleRedeemExisting | handlers_invite.go:186-252 | the same for an existing user: the database it leaves and its reply in every branch |
| InviteLog.FindsByColumns | store/invites.go:85-97 | the lookup of both calls leads to an invite if and only if it is pending then, has the code and its expiry lies ahead |
| InviteLog.ExpiredCodeFindsNothing | store/invites.go:85-97 | a code whose invite has expired by then leads to none, so neither call has an invite to use |
| InviteLog.UseByColumns | store/invites.go:156-166 | the UseInvite of both calls takes the invite if and only if it is pending then, its expiry lies ahead and the user is registered; otherwise it leaves the database as it found it |
| RedemptionRuns.RedemptionConnects | handlers_invite.go:283-320 | every inviter returned is another user with exactly one DM with the new one, whatever fails and whatever happens in between, and all that statements keep is kept |
| RedemptionRuns.MainFailsIff | handlers_invite.go:277-281 | without failing statements the error return happens if and only if the invite was no longer open at its UseInvite and no row is an error |
| RedemptionRuns.NothingLeftIff | handlers_invite.go:277-320 | without failing statements no invite to the address from before the call is open at its last statement, if and only if the own invite was still open when used, or no row is nil, or no other was open |
| RedemptionRuns.LostRaceLeavesInvites | handlers_invite.go:277-281 | a run in which a rival uses the invite first, and the other invite to the address stays open |
| RedemptionRuns.WhoIsConnected | handlers_invite.go:286-319 | without failing statements and with new ids the users returned are exactly the authors of the invites taken, except the user and those whose DM another request made inside CreateDM; with all of them the user has exactly one DM, whatever others do |
| RedemptionRuns.WhichAreTaken | handlers_invite.go:277-310 | if no row is nil the invites taken are the own one and all that were read; if it is an error they are all used by this user, the own one among them |
| RedemptionRuns.GoesOnWithoutInvite | handlers_invite.go:277-283 | the call goes on without the invite being the user's if and only if no row is nil and the invite was closed, not by this user, before its UseInvite |
| RedemptionRuns.LoserIsConnected | handlers_invite.go:277-292 | a run in which the invite is a rival's and the user is connected with its author all the same |
| RedemptionRuns.LeftAlone | handlers_invite.go:258-323 | without other requests no invite appears, every invite spent was taken, and every user returned is a contact both ways |
| RedemptionRuns.ExistingOwns | handlers_invite.go:217-251 | success means the invite is used by this user for good, and there is exactly one DM with its author, the one in the reply |
| RedemptionRuns.ExistingSucceedsIff | handlers_invite.go:217-233 | without failing statements and with a new id it succeeds if and only if the invite is still open when used and somebody else's, and nobody makes the DM inside its CreateDM |
| RedemptionRuns.RacedExisting | handlers_invite.go:217-233 | if another request makes the DM inside CreateDM, the reply is an error, the invite is the user's and the two have exactly one DM |
| RedemptionRuns.MeetingIsAnError | store/conversations.go:80-119 | a run in which the inviter opens the DM just then |
| RedemptionRuns.ExistingContacts | handlers_invite.go:235-238 | without other requests the two are contacts after it |

## Left out

- RedemptionRuns.LeftAlone: that connected users are contacts is stated without other requests, because another request can remove a contact that was just added.
- RedemptionRuns.NothingLeftIff: an invite created by another request during the call can be open after it, so only invites from before it are promised.
- Cluster.OneCopyEach: the hubs stand still during the call; a session that logs in as another target between two deliveries can get two copies.
- Hub.Hub.SendToUsers: a copy is handed to the session's send buffer; what a full or closing buffer drops is not modelled.
- SdkBase64.Decode: the UTF-8 pass after the loop is not modelled.
- InviteToken.Generate: the clock is taken as the 32 bits that the token stores.
- MessageList.Hook.LoadedMore: the page is queried when it is answered; an event between the two finds it already in the list.
- Conversations.AddMemberChanges: updated_at is no part of a row here, and every call overwrites it (store/conversations.go:479).
- ReactionMirror.MirrorFollowsServer: a session that misses events (a full send buffer, a lost connection, Redis down) or gets them in another order than they were committed in.
- ReactionMirror.HandleReact: heads whose reactions are no object of lists; the server never stores one (`RowRace.NoLostUpdate`).
- Receipts.CopiesAlwaysAgree: a fetch may answer with an older state than events already heard, and it then lowers marks; only the agreement of the copies is claimed.
- Messages are keyed by conversation and number; their separate ids, encryption of content, file attachments, pins and mention search are not modelled.
- JSON is a small datatype; number precision and members the server never writes are not modelled.
- Removing users, and everything that cascades from it.
- The request counter of the SDK is unbounded here; JavaScript numbers stop counting at 2^53.
- Replies and broadcasts of the handlers, presence timers, and the reconnect logic of the SDK.
- WebSocket, HTTP, SMTP, media and configuration code.
- AES-GCM, HMAC-SHA256, Argon2 and JWT internals.
- Rules by which graphemes are cut (section 3 of UAX #29): the segmenter is not part of this model.
