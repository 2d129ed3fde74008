# GiJo chat: a verified model

GiJo is a chat system written in C around a small protocol, CPT. A server keeps a directory of
channels, each with a list of users, polls its sockets, and answers requests to log in, create,
join, leave, log out and send. A pool of worker threads relays voice tasks from a shared queue. A
client runs a sending and a receiving thread that wait for each other. Packets are written and
read by a small interpreter over format strings.

The project models six parts of it. Code that changes state in place stays imperative (heap lists,
arrays, classes) and is proved against functions; the two threaded protocols are transition systems
in which every lock, wait, signal and unlock is a step of its own, and so is every test of a variable
that is read without the lock. What the program promises is then proved of those functions and
systems, for all inputs and all runs.

Where a request makes the source follow a null pointer, the methods set `fault`, and the functions of
`Directory` that end in `Outcome` give no result. What a C program does from there on is not modelled.
The theorems about runs hold for every run of the directory, so for each real run up to its first fault.

| files | part |
|---|---|
| `Seqs`, `Wrappers`, `Commands` | sequence vocabulary, optional values, command codes |
| `LinkedLists`, `Users`, `FilterLaws` | the heap list, user lists, and the multi-pass `filter` |
| `Directory`, `DirectoryLaws`, `LogoutLaws`, `Requests`, `DirectoryRuns`, `LogoutSilence`, `OneUser`, `ChannelIds` | the directory as a state machine, what each request does told from outside, its invariant, the logout loop, where requests fault, whole runs, when a logout silences a user, channel ids |
| `Server`, `ServerRuns` | the same directory on the heap, every handler refining a step of the state machine, and whole runs of it |
| `VoiceQueue`, `VoicePool`, `VoicePasses` | the task array with its shift loop, the worker pool, and whole calls and passes of it |
| `PollSet`, `PollLaws` | the poll array, in-place compaction, sweeps and runs of sweeps |
| `Connections` | the event loop as a whole: sweeps of the poll set drive the directory, and the two stay tied |
| `Codec`, `CodecLaws`, `Packets`, `PacketBuilder` | `serialize` and `parse`, the round trips, the CPT packets |
| `ClientHandshake` | the client's two threads |

## Where the code does not do what one would expect

Each of these is proved, with the exact condition or a concrete run.

- `delete_node` follows a null pointer on a list that is empty, and on one whose only node does not
  match (`common/src/linked_list.c:266`; documented is 0, `common/include/linked_list.h:152`). Logout
  runs it on every channel. So a logout follows a null pointer exactly when some channel, the global
  one included, lists nobody or just one user who is somebody else, and a leave exactly when that is so
  of the live channel left (`LogoutLaws.FaultsIff`). `ChannelIds.StrangerFaults` is a short run to a
  directory with unique ids and no empty channel where both do.
- A create follows one exactly when nobody is found for the channel and the requester is not listed,
  or when only root is listed and several ids are asked for (`LogoutLaws.CreateFaultsIff`). A login
  with too long a name is refused but stays connected; its first CREATE is such a request
  (`Connections.RefusedLoginFaults`).
- GET_USERS follows one exactly when the channel is live and lists nobody (`LogoutLaws.FaultsIff`),
  which a run can reach (`ChannelIds.EmptyChannelFaults`).
- The logout loop deletes emptied channels by id while it walks the list. It comes to its end with the
  intended effect exactly when, besides, no surviving channel stands before an emptied one with the
  same id (`LogoutLaws.LogoutLoopCorrectIff`). Ids do repeat: `ChannelIds.RepeatedIds` is a run that
  reaches such a directory, `ChannelIds.RepeatedIdsBreakLogout` a logout there that faults nowhere and is wrong.
- A logout takes the user off each list once. The id is still reached on the global channel exactly
  when that listed it twice, and with unique channel ids it is silenced on all channels exactly when
  none listed it twice (`LogoutSilence.LogoutReachedIff`, `LogoutSilence.LogoutSilencesIff`). It comes
  to be listed twice when a peer closes without a LOGOUT, stays listed, and its descriptor is used
  again (`LogoutSilence.StaleDescriptorStillReached`). The runs of the positive theorems therefore log
  in only descriptors that are not listed (`DirectoryLaws.Orderly`), which
  `Connections.ListedArePolled` derives from the poll set as long as no hung-up descriptor is reused
  while it is listed; for the silence of one id it is enough that this id is (`OneUser.Careful`).
- `filter` returns a user other than the head as often as its id is asked for
  (`FilterLaws.FilterDistinctIff`). The id parsing of a create request yields no ids as it stands; once
  it yields some, a create that names a user twice lists it twice, and a logout does not silence it
  (`LogoutSilence.DoubleInviteStillReached`).
- A text of 65536 bytes or more does not survive the codec, whose length field has 16 bits
  (`CodecLaws.RoundTripIff`).
- The text of a request or a response has room in the 512-byte buffer it is parsed into exactly
  when it is not 512 bytes long (`Packets.RoomIff`). The copy of a request's message by received size
  stays within that buffer exactly for messages of at most 506 bytes (`Packets.WholeRequest`).

## Model

| member | source | states |
|---|---|---|
| `LinkedLists.LinkedList.InitNode` | common/src/linked_list.c:97-115 | a well-formed list of exactly the given node |
| `LinkedLists.LinkedList.InitData` | common/src/linked_list.c:69-94 | a well-formed list of one fresh node that holds the datum |
| `LinkedLists.LinkedList.PushData` | common/src/linked_list.c:139-161 | a fresh node in front; chain stays acyclic, `length` its size, `tail` its last node from two nodes on |
| `LinkedLists.LinkedList.PushNode` | common/src/linked_list.c:164-181 | the given node in front; an empty list is refused and unchanged |
| `LinkedLists.LinkedList.FindNode` | common/src/linked_list.c:234-248 | the first node whose datum matches, null if none |
| `LinkedLists.LinkedList.DeleteNode` | common/src/linked_list.c:251-292 | unlinks exactly the node FindNode returns, keeps the order of the rest and the shape; 1 iff one matched, else nothing changes; `fault` iff the list is empty or its one node does not match, where the source follows a null pointer |
| `LinkedLists.ApartNodes` | common/src/linked_list.c:139-181 | two well-formed lists never share a node |
| `Users.FilterUserId` | cpt_app/server/src/user.c:188-212 | true iff the id is still in the query; consumes exactly its first occurrence |
| `Users.Turn` | common/src/linked_list.c:192-214 | one turn of the loop on the heap is one step of the cursor, wrapping to the node after the head; the list is untouched |
| `Users.Filter` | common/src/linked_list.c:184-219 | the filter loop ends and leaves the list untouched; null iff nothing is found, else a fresh well-formed list of the finds; `fault` iff it compares through a null node, which is for a non-empty query on an empty list and for several ids on a list of one |
| `Users.FilterFaultsIff` | common/src/linked_list.c:192-214 | the loop comes to a null node exactly in those cases |
| `FilterLaws.FilterIsDue` | common/src/linked_list.c:184-219 | the loop that consumes its query finds just what is due by the original query, newest first; its early exit loses nothing |
| `FilterLaws.FilterCounts` | cpt_app/server/src/user.c:188-212 | each user but the head is returned once per occurrence of its id in the query, the head at most once |
| `FilterLaws.FilterMembers` | cpt_app/server/src/user.c:188-212 | only listed users whose id is asked for are returned |
| `FilterLaws.FilterDistinctQuery` | common/src/linked_list.c:184-219 | for a query without repeats: the intersection, in reverse list order |
| `FilterLaws.FilterNullIff` | common/src/linked_list.c:216-218 | the result is null iff no listed user is asked for |
| `FilterLaws.FilterDistinctIff` | common/src/linked_list.c:184-219 | no user is returned twice iff no user but the head is asked for twice |
| `Requests.LoginEffect` | cpt_app/server/src/user.c:7-29 | a login puts a user with that very name, or "anonymous", in front of the global list and changes nothing else; refused, changing nothing, iff the name has more than 12 characters or that list is empty |
| `Requests.JoinEffect` | cpt_api/src/cpt_server.c:144-156 | command 5 puts a listed non-member, with its global record, in front of the newest live channel with that id; nothing else changes |
| `Requests.JoinIdle` | cpt_api/src/cpt_server.c:144-157 | otherwise it changes nothing |
| `Requests.LeaveRequestEffect` | cpt_api/src/cpt_server.c:172-183 | command 6 takes a member off that channel, the others in order, and drops the channel with its last member; nothing else changes |
| `Requests.LeaveIdle` | cpt_api/src/cpt_server.c:169-184 | otherwise it changes nothing |
| `Requests.CreateAlone` | cpt_api/src/cpt_server.c:120-128 | command 4, when nobody is asked for or found: a channel in front whose only user is the requester, under the old number of channels as id |
| `Requests.CreateInvited` | cpt_api/src/cpt_server.c:114-128 | otherwise its users are the ones filter finds |
| `Requests.CreateThenLeave` | cpt_api/src/cpt_server.c:100-185 | command 4 by a listed user without asking for anybody, then 6, restores the directory when the new id is not 0 |
| `Requests.LogoutEffect` | cpt_api/src/cpt_server.c:23-58 | after command 2 no channel lists the id, and the global channel lists just the others |
| `Requests.LogoutEffectOn` | cpt_api/src/cpt_server.c:41-55 | with unique ids, channel by channel: the other members stay in order, a channel left without any goes, the rest stay as they are |
| `Requests.SendEffect` | cpt_app/server/src/server_events.c:250-276 | command 1 reaches the listed users of the newest live channel but for sender and root, and changes nothing |
| `Requests.SendInOrder` | cpt_app/server/src/server_events.c:262-274 | each after as many writes as the users before it call for |
| `Requests.GetUsersEffect` | cpt_api/src/cpt_server.c:71-91 | command 3 names the users of the newest live channel in order, with code 1, else nobody with 17; faults iff that channel lists nobody |
| `Requests.OtherEffect` | cpt_app/server/src/server_events.c:10-47 | only command 1 sends; commands that are not dispatched change nothing |
| `Requests.JoinCode` | cpt_api/src/cpt_server.c:157 | 1 iff the channel is live and the user is in it or listed globally, else 22 |
| `Requests.LeaveCode` | cpt_api/src/cpt_server.c:170-184 | 17 for channel 0; else 1 iff the user is a member of the live channel, else 22 |
| `Requests.LogoutCode` | cpt_api/src/cpt_server.c:55-57 | 1 iff the user is listed globally, else 22 |
| `DirectoryLaws.InvStep` | cpt_api/src/cpt_server.c:7-185 | every request keeps: members are logged in and listed once per channel, the global channel is last and alone has id 0, the root user is its last user |
| `DirectoryLaws.InvLogin` | cpt_app/server/src/server_events.c:50-107 | a login of an unlisted descriptor keeps that invariant |
| `DirectoryLaws.InvCreate` | cpt_api/src/cpt_server.c:100-131 | so does create, when no listed user is asked for twice |
| `DirectoryLaws.InvJoin` | cpt_api/src/cpt_server.c:134-158 | so does join |
| `DirectoryLaws.InvLeave` | cpt_api/src/cpt_server.c:161-185 | so does leave, repeated ids or not |
| `DirectoryLaws.LeaveEffect` | cpt_api/src/cpt_server.c:161-185 | leave shrinks one channel, or deletes that very channel when it empties, or changes nothing - even when ids repeat |
| `DirectoryLaws.InvLogout` | cpt_api/src/cpt_server.c:23-58 | logout keeps the invariant, and the id is in the global channel no more |
| `DirectoryLaws.LoopCleans` | cpt_api/src/cpt_server.c:41-54 | after the loop no channel but the global one lists the id, even when ids repeat |
| `LogoutLaws.LogoutFaultsIff` | cpt_api/src/cpt_server.c:33-56 | a logout follows a null pointer iff some channel, the global one included, lists nobody or one user who is somebody else |
| `LogoutLaws.FaultsIff` | cpt_api/src/cpt_server.c:7-185 | over every directory, exactly the requests other than create that follow a null pointer: such a logout, a leave of a live channel that lists nobody or one other user, a GET_USERS of a live channel that lists nobody |
| `LogoutLaws.CreateFaultsIff` | cpt_api/src/cpt_server.c:114-128 | a create does iff only root is listed and several ids are asked for, or no listed user is asked for and the requester is not listed |
| `LogoutLaws.LogoutLoopCorrectIff` | cpt_api/src/cpt_server.c:41-54 | the loop over a list it deletes from ends with: the id removed everywhere, what that empties dropped, the order kept - iff no channel makes it fault and no survivor stands before an emptied channel with the same id; without the latter an empty channel is left behind |
| `LogoutLaws.LogoutWithUniqueIds` | cpt_api/src/cpt_server.c:23-58 | with unique ids the whole logout is that map-then-filter, and the user leaves the global channel, iff no channel makes it fault |
| `LogoutLaws.NoEmptyStep` | cpt_api/src/cpt_server.c:41-54 | where no channel is empty, a request without a fault leaves one empty iff it is a logout that repeated ids break |
| `DirectoryRuns.ReachableInv` | cpt_api/src/cpt_server.c:7-185 | the invariant holds in every reachable directory |
| `DirectoryRuns.SendReaches` | cpt_app/server/src/server_events.c:241-279 | SEND reaches exactly the other members of the channel, each once, never the root user, only users logged in |
| `DirectoryRuns.SilentAfterLogout` | cpt_api/src/cpt_server.c:23-58 | over every orderly run: after a logout, until that id logs in again, no SEND on any channel reaches it |
| `OneUser.SilentAfterOwnLogout` | cpt_api/src/cpt_server.c:23-58 | the same over runs in which other ids are stale, repeated or cut to the same eight bits: it is enough that this id logs in only while it is not listed and is invited at most once at a time |
| `OneUser.StepKeeps` | cpt_api/src/cpt_server.c:7-185 | in such runs every event keeps: no channel lists this id twice, and none lists it that the global one does not |
| `OneUser.FoundOfOne` | common/src/linked_list.c:184-219 | on any list, the filter finds an id at most as often as it is asked for, and only if it is listed |
| `DirectoryRuns.LoginDistinctIff` | cpt_app/server/src/user.c:25 | a login on any descriptor keeps ids distinct iff nobody is listed under its last eight bits |
| `LogoutSilence.LogoutReachedIff` | cpt_api/src/cpt_server.c:23-58 | after its logout an id is still reached on the global channel iff that listed it twice |
| `LogoutSilence.LogoutChannels` | cpt_api/src/cpt_server.c:41-55 | with unique ids: after a logout the channels are the old ones without the user, but for the ones emptied |
| `LogoutSilence.LogoutSilencesIff` | cpt_api/src/cpt_server.c:23-58 | with unique ids, a logout silences the id on every channel iff no channel listed it twice |
| `LogoutSilence.DoubleInviteStillReached` | common/src/linked_list.c:184-219 | what `filter` would make of a query that names a user twice, did the id parsing yield one: a channel that lists it twice, and a SEND that still reaches it after its logout |
| `LogoutSilence.StaleDescriptorStillReached` | cpt_app/server/src/cpt_chat_server.c:110-113 | after a hangup and a login on the same descriptor, a logout leaves it reachable |
| `DirectoryRuns.NoEmptyChannel` | cpt_api/src/cpt_server.c:23-185 | no channel is empty in any run whose logouts find unique ids |
| `ChannelIds.CreateReportsNewest` | cpt_app/server/src/server_events.c:199 | the id reported to the creator finds the new channel, the rest of the directory is unchanged, and it is 0 only at a multiple of 65536 channels |
| `ChannelIds.CreateUniqueIff` | cpt_api/src/cpt_server.c:126 | a new id is unique iff no live channel has the directory's length as its id |
| `ChannelIds.DescendingStep` | cpt_api/src/cpt_server.c:126 | a request keeps ids running from length - 1 down to 0 iff it deletes newest channels first |
| `ChannelIds.DescendingRun` | cpt_api/src/cpt_server.c:126 | in a run that always does, ids run down to 0 and are unique |
| `ChannelIds.RepeatedIds` | cpt_api/src/cpt_server.c:126 | a run without a fault after which two live channels have id 2 |
| `ChannelIds.RepeatedIdsBreakLogout` | cpt_api/src/cpt_server.c:41-54 | there a logout, without a fault, deletes the channel of two other users and leaves an empty one |
| `ChannelIds.EmptyChannelFaults` | cpt_app/server/src/channel.c:194-196 | and a GET_USERS of the empty one follows a null pointer |
| `ChannelIds.StrangerFaults` | common/src/linked_list.c:266 | a run to unique ids and no empty channel, after which both the logout of a user and its leaving a channel it is not in follow a null pointer |
| `ChannelIds.JoinLeaveRestoresIff` | cpt_api/src/cpt_server.c:134-185 | join then leave restores the directory exactly, without a fault, iff the channel is not live, or the user was no member and it was not empty - and, for somebody not logged in, listed at least two |
| `ChannelIds.CreateLeaveRestoresIff` | cpt_api/src/cpt_server.c:100-185 | create then leave restores the directory exactly, without a fault, iff the creator is the only member and the new id is not 0, whatever ids repeat |
| `Server.ServerInfo.constructor` | cpt_app/server/src/channel.c:8-39 | the global channel and the directory's copy of it, sharing one user list that holds the root user |
| `Server.ServerInfo.OneListChanged` | cpt_app/server/src/channel.c:74-80 | a change to one channel's user list changes that channel and no other |
| `Server.ServerInfo.UserDelete` | cpt_app/server/src/user.c:111-125 | removes the id from the list of one channel, every other channel and the directory unchanged; `fault` iff that list is empty or lists one other user |
| `Server.ServerInfo.UserPush` | cpt_app/server/src/user.c:63-71 | puts the user in front of one channel's list, every other channel unchanged |
| `Server.ServerInfo.UserPushNode` | cpt_app/server/src/channel.c:231-240 | the same with a ready node; an empty list is refused |
| `Server.ServerInfo.ChannelDelete` | cpt_app/server/src/channel.c:171-184 | unlinks the newest channel with that id, user lists untouched; `fault` iff the only channel has another id |
| `Server.ServerInfo.ChannelPush` | cpt_app/server/src/channel.c:94-102 | a new channel in front, the others untouched |
| `Server.ServerInfo.FindChannel` | cpt_app/server/src/channel.c:252-280 | the newest channel with that id, if any |
| `Server.ServerInfo.FindUser` | cpt_app/server/src/user.c:95-103 | the first user with that id in the channel's list, if any |
| `Server.ServerInfo.LoginEvent` | cpt_app/server/src/server_events.c:50-107 | on the heap, a step of the directory: push on the global channel unless the name is too long |
| `Server.ServerInfo.JoinChannel` | cpt_api/src/cpt_server.c:134-158 | refines Directory.Join, reply code included |
| `Server.ServerInfo.LeaveChannel` | cpt_api/src/cpt_server.c:161-185 | refines Directory.Leave, reply code included; `fault` exactly where Directory.LeaveFaults, which FaultsIff characterises |
| `Server.ServerInfo.FilterChannelUsers` | cpt_app/server/src/channel.c:104-125 | the filter of the global channel's users, nothing changed; null iff it is empty; its fault passed on |
| `Server.ServerInfo.InviteUsers` | cpt_api/src/cpt_server.c:114-124 | the members of the new channel, in a list shared with no other; `fault` exactly where CreateFaultsIff says |
| `Server.ServerInfo.CreateChannel` | cpt_api/src/cpt_server.c:100-131 | refines Directory.Create; on a fault nothing is changed |
| `Server.ServerInfo.CreateChannelEvent` | cpt_app/server/src/server_events.c:187-218 | create as an event; the id reported to the creator is the new channel's |
| `Server.ServerInfo.GetUsersResponse` | cpt_api/src/cpt_server.c:61-97 | names the channel's users in list order, nothing changed; `fault` iff it is live and lists nobody |
| `Server.ChannelUsers` | cpt_app/server/src/channel.c:187-217 | the walk names every user of the list, in order; `fault` iff there is none |
| `Server.ServerInfo.LogoutTurn` | cpt_api/src/cpt_server.c:41-54 | one turn of the loop on a list that it may shorten: the saved successor is still the next node; `fault` iff this channel makes delete_node fault |
| `Server.ServerInfo.LogoutResponse` | cpt_api/src/cpt_server.c:23-58 | refines Directory.Logout, reply code included; `fault` exactly where Directory.LogoutFaults, which LogoutFaultsIff characterises |
| `Server.ServerInfo.SendEvent` | cpt_app/server/src/server_events.c:241-279 | writes to the receivers of Directory.Deliveries, in list order, and changes nothing |
| `Server.Broadcast` | cpt_app/server/src/server_events.c:262-274 | one write per listed user other than root and the sender |
| `Server.ServerInfo.HandleEvent` | cpt_app/server/src/server_events.c:10-47 | every dispatched command is one step of the directory, with its deliveries, and faults exactly where Directory.Faults |
| `Server.ServerInfo.HandleRequest` | cpt_app/server/src/cpt_chat_server.c:94-99 | the same of every request, LOGOUT included, the heap staying well formed |
| `ServerRuns.HandleOne` | cpt_app/server/src/cpt_chat_server.c:85-99 | one login or request on the heap is that step of the directory, with its deliveries and its fault |
| `ServerRuns.HandleAll` | cpt_app/server/src/cpt_chat_server.c:43-128 | a list of logins and requests on the heap is the run of the directory up to the first fault, and writes to exactly whom the run reaches |
| `ServerRuns.SilentInLog` | cpt_api/src/cpt_server.c:23-58 | what is written after the logout of a user who does not log in again does not reach it |
| `ServerRuns.Serve` | cpt_app/server/src/cpt_chat_server.c:24-130 | from its start, on the heap: the invariant holds after an orderly run without a fault, and nobody who has logged out for good is written to |
| `VoiceQueue.TaskQueue.Submit` | cpt_app/server/src/server_voice.c:42-51 | the task goes to the end of the queue |
| `VoiceQueue.TaskQueue.Take` | cpt_app/server/src/server_voice.c:67-73 | the shift loop takes the first task and keeps the rest in order |
| `VoicePool.ReachableInv` | cpt_app/server/src/server_voice.c:42-87 | in every interleaving: one mutex holder; nobody sleeps or queued tasks are covered by owed signals and workers about to check; every submitted task in exactly one place |
| `VoicePasses.ToggleCall` | cpt_app/server/src/server_voice.c:117-122 | a call of toggle_user_vchan flips this user's entry and nothing else |
| `VoicePasses.ToggleTwice` | cpt_app/server/src/server_voice.c:117-122 | two calls cancel |
| `VoicePasses.SubmitCall` | cpt_app/server/src/server_voice.c:42-51 | a call of submit_task puts the task at the end of the queue, wakes a sleeper if there is one, and returns |
| `VoicePasses.EmptyPass` | cpt_app/server/src/server_voice.c:61-65 | a worker that finds the queue empty sleeps |
| `VoicePasses.TakePass` | cpt_app/server/src/server_voice.c:61-75 | otherwise it takes the first task |
| `VoicePasses.RotatePass` | cpt_app/server/src/server_voice.c:59-87 | a whole turn with an active user's task moves it to the end of the queue |
| `VoicePasses.OnlyInactiveDestroyed` | cpt_app/server/src/server_voice.c:76-85 | over every run, a task is destroyed only if its user was inactive meanwhile |
| `VoicePool.WakeupStep` | cpt_app/server/src/server_voice.c:42-65 | every step keeps the covering of queued tasks by owed signals and workers about to check, signal after unlock and spurious wakeups included |
| `VoicePool.ConservedStep` | cpt_app/server/src/server_voice.c:42-87 | every step keeps each submitted task in exactly one of queue, one thread's hands, destroyed |
| `VoicePool.NoLostWakeup` | cpt_app/server/src/server_voice.c:50-65 | tasks queued and all workers asleep: some submitter still owes a signal |
| `VoicePool.NeverStuck` | cpt_app/server/src/server_voice.c:42-87 | while a task is queued, some thread can step |
| `VoicePool.PopsSoon` | cpt_app/server/src/server_voice.c:54-87 | in every run, spurious wakeups and new calls included: a queued task is popped before 8 steps per thread and 5 per new call have been taken |
| `VoicePool.AppendHasRoom` | cpt_app/server/src/server_voice.c:13 | no append, resubmissions included, finds the 1024 slots full if outside submissions keep the live tasks within 1024 |
| `VoicePool.QueueLaw` | cpt_app/server/src/server_voice.c:42-73 | over every run: popped then queued is what was queued then appended |
| `VoicePool.LeavesInTurn` | cpt_app/server/src/server_voice.c:67-80 | the task at position p leaves on exactly the (p+1)-th pop, whatever is submitted meanwhile |
| `VoicePool.RoundRobin` | cpt_app/server/src/server_voice.c:76-80 | a resubmitted task is popped again only after everything queued ahead of it |
| `PollSet.Poller.constructor` | cpt_app/server/src/cpt_chat_server.c:140-150 | the listening descriptor alone, in slot 0, with its own event mask |
| `PollSet.Poller.ShiftLeft` | cpt_app/server/src/cpt_chat_server.c:189-192 | drops slot i; event masks stay where they are |
| `PollSet.Poller.CompressAt` | cpt_app/server/src/cpt_chat_server.c:187-194 | one turn keeps or drops one descriptor and shortens what is left, although i steps back |
| `PollSet.Poller.CompressFds` | cpt_app/server/src/cpt_chat_server.c:182-196 | ends, and leaves exactly the descriptors other than -1, in order, masks where they were |
| `PollSet.Poller.AcceptAll` | cpt_app/server/src/cpt_chat_server.c:66-74 | the accepted descriptors follow the old ones, in order, with the right masks |
| `PollSet.Poller.CloseConnection` | cpt_app/server/src/cpt_chat_server.c:174-179 | leaves a tombstone in that slot only |
| `PollSet.Poller.ServeReady` | cpt_app/server/src/cpt_chat_server.c:50-122 | after the slot loop: the closed slots are tombstones, the accepted descriptors appended, only old descriptors served, fatal iff a slot has an event other than input |
| `PollSet.Poller.Sweep` | cpt_app/server/src/cpt_chat_server.c:43-128 | a sweep leaves the survivors and then the accepted; listening descriptor first, descriptors distinct, masks right |
| `PollSet.SweptPacked` | cpt_app/server/src/cpt_chat_server.c:43-128 | after a sweep slot 0 is still the listening descriptor, no descriptor occurs twice, no gaps |
| `PollLaws.LiveInOrder` | cpt_app/server/src/cpt_chat_server.c:182-196 | compaction moves slot k to the slot numbered by the live descriptors before it |
| `PollLaws.LiveCounts` | cpt_app/server/src/cpt_chat_server.c:182-196 | compaction keeps every descriptor but -1 as often as it was there |
| `PollLaws.SweptMembers` | cpt_app/server/src/cpt_chat_server.c:43-128 | polled after a sweep iff polled before and not closed in it, or accepted in it |
| `PollLaws.StopsFirst` | cpt_app/server/src/cpt_chat_server.c:53-60 | a slot is passed iff every event word up to its own is empty or contains the bit 0x0001, whatever else it contains |
| `PollLaws.WordsThatPass` | cpt_app/server/src/cpt_chat_server.c:133-137 | input passes alone and with a hang-up; a hang-up alone, and every word without the input bit, does not |
| `PollLaws.PlainSweep` | cpt_app/server/src/cpt_chat_server.c:50-122 | when all words are empty or contain input: nothing is fatal, every ready connection is served, just the closed go, the accepted come last |
| `PollLaws.BrokenSweep` | cpt_app/server/src/cpt_chat_server.c:56-60 | the first other word ends the sweep: no slot from there on is served or closed |
| `PollLaws.ServedOnce` | cpt_app/server/src/cpt_chat_server.c:50-122 | exactly the ready descriptors before the stop are served, each once, none of them accepted in this sweep |
| `PollLaws.SweptCount` | cpt_app/server/src/cpt_chat_server.c:43-128 | the number of slots is the old one, less the closed, plus the accepted |
| `PollLaws.PolledIff` | cpt_app/server/src/cpt_chat_server.c:43-128 | over every run: polled iff some sweep accepted it and no later one closed it |
| `PollLaws.ServedWasAccepted` | cpt_app/server/src/cpt_chat_server.c:49-72 | a request is received only from a descriptor that an earlier sweep accepted, still open |
| `PollLaws.RunCount` | cpt_app/server/src/cpt_chat_server.c:43-128 | over every run: connections polled are those accepted less those closed |
| `Connections.TiedStep` | cpt_app/server/src/cpt_chat_server.c:62-121 | if listed users are open or hung-up connections, every event keeps that, meets the directory's obligations, and writes only to such connections |
| `Connections.SlotConnects` | cpt_app/server/src/cpt_chat_server.c:50-122 | passing one slot changes the polled descriptors exactly as its event changes the open connections |
| `Connections.EventsAre` | cpt_app/server/src/cpt_chat_server.c:62-121 | the events of a sweep are the logins of the accepted, then what the served connections do, one each and in order |
| `Connections.RunConnects` | cpt_app/server/src/cpt_chat_server.c:43-128 | over every run of sweeps, hung-up descriptors reused or not: the descriptors polled are exactly the connections that the events leave open, none is accepted while in use, and requests come over open ones only |
| `Connections.ListedArePolled` | cpt_app/server/src/cpt_chat_server.c:43-128 | in every run with descriptors 1..255 that reuses no hung-up one while it is listed, invites nobody twice at once and has fewer than 65536 channels at creates: the directory's invariant holds, every listed user but root is polled or was hung up, and nobody else is written to |
| `Connections.ListedArePolledWithoutHangup` | cpt_app/server/src/cpt_chat_server.c:94-99 | under these obligations and without hang-ups: every listed user but root is polled |
| `Connections.RefusedLoginFaults` | cpt_app/server/src/server_events.c:67-106 | a login refused for its name stays connected, and its first CREATE follows a null pointer |
| `Codec.PackI16` | common/src/serialize.c:8-11 | writes the number modulo 65536, high byte first, and nothing else |
| `Codec.UnpackI16` | common/src/serialize.c:132-142 | the signed 16-bit number congruent to the unsigned one |
| `Codec.Resign` | common/src/serialize.c:84-89 | the signed 8-bit number congruent to the byte |
| `Codec.Serialize` | common/src/serialize.c:14-63 | writes exactly the encoding of the arguments, leaves the rest of the buffer, returns its size in 32 bits |
| `Codec.Parse` | common/src/serialize.c:66-129 | yields the decoded values and the final cursor |
| `CodecLaws.UnpackPack` | common/src/serialize.c:132-148 | two bytes unpacked, signed or not, pack to the same bytes |
| `CodecLaws.EncodeFields` | common/src/serialize.c:29-60 | digits and unknown letters in a format do not change what serialize writes |
| `CodecLaws.RoundTrip` | common/src/serialize.c:14-129 | for every format over c C H s, with caps: parse recovers every argument, cut to its field and cap, and consumes exactly what was written, whatever follows |
| `CodecLaws.RoundTripTwoFormats` | common/src/serialize.c:14-129 | the same when the two formats differ in their caps |
| `CodecLaws.StoredExactIff` | common/src/serialize.c:84-118 | the arguments come back unchanged iff each is in its field's range and each text within its cap |
| `CodecLaws.RoundTripIff` | common/src/serialize.c:50-58 | without caps every text is recovered iff all are shorter than 65536 bytes |
| `CodecLaws.ReadBack` | common/src/serialize.c:14-129 | the other direction: serializing what was parsed gives the same bytes |
| `CodecLaws.SignedField` | common/src/serialize.c:96-100 | h reads the signed number whose two bytes are there; serialize ignores the letter |
| `CodecLaws.CapIsDigitRun` | common/src/serialize.c:119-125 | the cap in force is the decimal value, in 32 bits, of the digit run just before |
| `CodecLaws.CapsKeepSync` | common/src/serialize.c:108-125 | caps never move the cursor and cut nothing but texts |
| `CodecLaws.DecodeInTwo` | common/src/serialize.c:81-126 | a format is read piece by piece, only the cap being carried over |
| `CodecLaws.CappedText` | common/src/serialize.c:108-125 | at an s: the full text, or its first cap - 1 bytes; later fields are read after the full text |
| `Packets.RequestLayout` | cpt_api/src/cpt_serialize.c:8-19 | the bytes of a request: version, command, channel, message length, message |
| `Packets.ResponseLayout` | cpt_api/src/cpt_serialize.c:22-31 | the bytes of a response: code, data length, data |
| `Packets.MsgLayout` | cpt_api/src/cpt_serialize.c:34-45 | the bytes of a message sub-packet |
| `Packets.RequestRoundTrip` | cpt_api/src/cpt_parse.c:34-55 | a request is read back, its message cut to 511 bytes beyond 512, consuming exactly its bytes |
| `Packets.ResponseRoundTrip` | cpt_api/src/cpt_parse.c:7-31 | the same of a response |
| `Packets.MsgRoundTrip` | cpt_api/src/cpt_serialize.c:34-45 | the same of a message sub-packet and its parse format |
| `Packets.RoomIff` | cpt_api/src/cpt_parse.c:9-15 | the stored text and its NUL fit the local buffer iff the text is not 512 bytes long |
| `Packets.RelayedText` | cpt_app/server/src/server_events.c:256-260 | a message sent by one client, parsed, copied by size and relayed by the server, is heard by another whole iff shorter than 512 bytes, else its first 511 |
| `Packets.SerializePacket` | cpt_api/src/cpt_serialize.c:8-19 | writes the request's bytes, returns their number |
| `Packets.SerializeResponse` | cpt_api/src/cpt_serialize.c:22-31 | writes the response's bytes, returns their number |
| `Packets.SerializeMsg` | cpt_api/src/cpt_serialize.c:34-45 | writes the sub-packet's bytes, returns their number |
| `Packets.ParseRequest` | cpt_api/src/cpt_parse.c:34-55 | the request that the buffer holds, with the message that the copy by received size gives; `overread` iff that copy reads past the local buffer |
| `Packets.MessageReadIs` | cpt_api/src/cpt_parse.c:47-52 | that message is whole when more bytes were received than it is long, else cut to as many |
| `Packets.WholeRequest` | cpt_api/src/cpt_parse.c:34-55 | a request received whole keeps its message, and the copy stays within the local buffer iff it has at most 506 bytes |
| `Packets.MsgFieldIff` | cpt_api/src/cpt_parse.c:47-52 | the copied field holds the whole message, terminated, iff more bytes were received than it is long |
| `Packets.ParseResponse` | cpt_api/src/cpt_parse.c:7-31 | the response that the buffer holds, the data ending at its first NUL |
| `PacketBuilder.CptRequest.SetVersion` | cpt_api/src/cpt_packet_builder.c:44-56 | both nibbles can be read back; a half above 15 changes nothing |
| `PacketBuilder.Send` | cpt_api/src/cpt_client.c:62-76 | the bytes 0x20 and 0x01, channel and length high byte first, then the text; and their number in 16 bits |
| `PacketBuilder.SendIsDispatched` | cpt_app/server/src/server_events.c:13-18 | the server reads those bytes as version 2.0 and as the event of a SEND to that channel with that text |
| `ClientHandshake.NoLostResponse` | interface/cli/src/cli_dc.c:121-125 | in every interleaving, a sleeping sender is still owed a response or a signal, and the receiver has not gone |
| `ClientHandshake.SleepsOnlyForCommand` | interface/cli/src/cli_dc.c:109-125 | in every interleaving the sender sleeps only for a command other than @menu and @logout, the last thing it issued |
| `ClientHandshake.AwakeAfterOthers` | interface/cli/src/cli_dc.c:109-137 | after @menu, @logout or a message it does not sleep before it issues something else |
| `ClientHandshake.ResponseBeforeNextIssue` | interface/cli/src/cli_dc.c:108-137 | after a command other than @menu and @logout, a response is handled before the sender issues, reads or unlocks anything |
| `ClientHandshake.NoResponseNeeded` | interface/cli/src/cli_dc.c:218-220 | @menu and messages, the empty one included, are back at the prompt without a response |
| `ClientHandshake.CommandSleeps` | interface/cli/src/cli_dc.c:109-125 | any other command puts the sender to sleep |
| `ClientHandshake.ResponseWakes` | interface/cli/src/cli_dc.c:156-176 | and a response brings it back to the prompt |
| `ClientHandshake.LogoutIssued` | interface/interface/src/handlers.c:45-53 | @logout does not wait and lowers LOGGED_IN |
| `ClientHandshake.ResponseBringsBack` | interface/cli/src/cli_dc.c:168-172 | from the step that handles the response on, the sender unlocks within the bound of ReturnsSoon, however the threads are scheduled |
| `ClientHandshake.NeverStuck` | interface/cli/src/cli_dc.c:121-176 | once the wait is over, the two threads can always go on until the sender unlocks |
| `ClientHandshake.ReturnsSoon` | interface/cli/src/cli_dc.c:121-176 | in every run, spurious wakeups included, it unlocks before ten of their steps and four more per response received meanwhile |
| `ClientHandshake.SilentAfterLogout` | interface/cli/src/cli_dc.c:118-119 | after @logout the sender issues nothing more and never sleeps |

## Left out

- Sockets, `poll`, `accept`, `send` and `recv`, UDP, shared memory, audio pipes, `fork` and `kill`: foreign calls. Ready events, accepted descriptors, closing connections and received bytes are parameters; what is sent is a returned log.
- `parse_channel_query` (`cpt_app/server/src/channel.c:128-157`): its first branch is always taken, so it counts zero ids. The create request takes the id list as a parameter instead, and the filter theorems hold for every list.
- `execute_voice_task`: what a worker does with a task is one opaque step. `set_user_vchan` and `get_user_vchan` only touch the UDP descriptors.
- A `pthread_cond_signal` that wakes several waiters: modelled as one signal and spurious wakeups.
- Reply texts of join, leave and create, the wording of the GET_USERS reply, `for_each`, and printing: display only.
- C layout effects: the 32-bit store into `channel_id` by an H field, raw integers sent as strings in create and join replies, the 16-bit read through an `int` pointer in `find_channel`. Values are typed.
- `cpt_app/server/src/mic_drop.c` (an earlier copy of the pool, not built) and `cpt_voice_server.c` (a near-copy of create, not dispatched).
- The user interface, the command parser and menus, the client's other request functions (the shape of `cpt_send`), CMake.
- Allocation failure, `free` (and with it a response freed twice by a SEND to a channel that is not live), teardown, and the length of a new list, which the source does not set before it increments it and which is taken as 0.
- User ids: `user_init` cuts descriptors to 8 bits, which the model does; the run theorems other than those of `OneUser` assume descriptors 1..255.
- LinkedLists.LinkedList.DeleteNode: where the source follows a null pointer, the result and the list after `fault` are the documented ones (0, nothing unlinked); what a C program does then is not modelled.
- Server.ServerInfo.CreateChannel: after `fault` the directory is as before; what a C program does then is not modelled.
- Packets.ParseRequest: requires a buffer that holds all that parse reads and a text that fits the local buffer; what lies behind that buffer, where `overread`, comes after the message's NUL and is not modelled, nor is `msg_len`.
- Packets.RelayedText: excludes the length 512, whose NUL has no room in the local buffer.
- PacketBuilder.CptRequest.Serialize: requires a message; the source has no check for a null one.
- PollSet.Poller.Sweep: requires fewer than 2048 slots after accepting, and that the kernel returns fresh descriptors; the source checks neither.
- CodecLaws.RoundTrip: formats with h are excluded, since serialize has no such field; UnpackI16 and PackI16 are related in CodecLaws.UnpackPack.
