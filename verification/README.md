# A verified model of the chat system

A chat server written in C keeps users (registered, online, on a socket) and temporary groups of
online users. A Web gateway written in JavaScript speaks to it for browsers over the same
length-prefixed packets, and mirrors in every session the groups of the user who is logged in. This
project models that system and proves what holds over all its runs.

The state-changing parts keep the form they have in the source: the group store is a linked list of
nodes with a fixed array of members each (`GroupStore`), the user store a list with a second,
hash-chained index over the same nodes (`UserStore`), the server a class over the two
(`ChatServer`), the gateway session, the stream decoder, the payload buffer and the receiving side
of the C client classes with the source's fields (`Gateway.ClientSession`, `Wire.PacketDecoder`,
`Payload.GroupPayload`, `FileTransfer.CIncomingFile`). Nearly every method is proved to do, for all
inputs, what a function on values says, and the theorems are about those functions.

| file | content |
|---|---|
| `Basics`, `Decimal` | C strings, fixed buffers, printed decimals |
| `Wire`, `Socket` | packets, framing on both sides, short reads and writes |
| `Payload` | group payloads written in C and read in JavaScript, and back |
| `GroupModel`, `GroupStore` | groups as values; the linked list in memory |
| `Credentials`, `UserModel`, `UserStore` | hex, passwords, users and their file; list and hash chains |
| `ServerModel`, `ServerSafety`, `ServerRuns`, `ChatServer` | the server as a state machine, its invariant, its runs, the server object |
| `Delivery`, `EndToEnd` | what each request does, in terms of users, groups and bytes; from one browser's action to what the others show |
| `SharedSockets` | how many users of a socket a cleanup takes off it |
| `Gateway`, `ChatSystem` | one browser session; server and any number of clients together |
| `ResponseMatching`, `ReadablePackets` | every answer meets its request; no packet makes the gateway throw |
| `CacheAgreement`, `MirrorRuns` | the mirror agrees with the server |
| `MissedEvents`, `StaleEvents` | departures after which it does not |
| `DownloadPath`, `FileTransfer` | free file names; sending a file and putting it together |

How things are read:

- A handler is one atomic step. `Env` holds what the code cannot know: the digest, the wording of the
  replies and, for every send ever made, whether it succeeds (`fate`). A theorem without `Reliable(env)`
  holds for every pattern of failed sends. The salt of a registration and whether its line reaches the
  file are part of the event.
- `ChatSystem` puts the server together with any number of connections, each with a queue of requests
  going up and packets coming down. A connection is a gateway session or `Plain`: a client that may
  send anything at all.
- `FormatId` and `Wrap` write out the 32-bit group counter: there are `IDS` (2^32) identifiers before the first
  comes round again, and where that matters the number of creations is a stated condition.

Claims that are false of the code, with the exact condition under which they hold:

- A cleanup always frees its socket when at most one user was on it. With more, every socket loses exactly
  one user for the cleanup and one for each failed send to it (`CleanupLoses`, `CleanupFreesSocket`), so without
  failed sends it is freed only then; `FreedByFailure` is a socket of two users freed by a failed send. Logging in
  does not stop a second user on the same socket.
- Inserting a group keeps every member online exactly when creator and members are online at that
  moment (`CreationKeepsInv`); the source checks and inserts under different locks.
- After a departure without failed sends a member's mirror is right exactly when each surviving group the two
  shared fits in an event and is among the first 64 that change (`DepartureMirrors`);
  `SixtyFifthGroupIsMissed` and `LongEventIsMissed` are runs from a server without groups that fail each guard:
  every created event still fits, and the mirror is right up to the departure. With groups of two the mirror is right
  exactly up to 64 of them (`SixtyFourGroupsAreTold`).
- When one send of a departure fails, the mirror of another member has a changed group right exactly when the
  member who missed the send is not in it, or it was sent before the failed send and its further change is among
  the first 64 (`StaleExactlyAfterFailure`); the departure may change any number of groups, and the failed send may be
  any of its sends (`FirstFailureHasARound`). Whatever fails later, the older group is sent to those after the failed
  send behind everything that cleaning up sent (`FirstFailedSend`). Cache agreement therefore asks for runs without
  failed sends.
- The queue of awaited answers stays matched after a request is served exactly when the request is awaited or
  is not one of those refused with an error (`ServedStaysMatched`, `UntrackedAnswered`), and after a failed
  encode exactly when no other group message is awaited (`FailedEncode`). `ErrorForTheWrongRequestAt5` and
  `NulInGroupId` are inputs that misalign it.
- Memory and file agree after a registration exactly when it adds nobody or its line is written
  (`RegistrationAndStorage`, `RestartRoundTrip`).
- A push that throws loses exactly the frames it had completed itself (`CuttingDoesNotMatter`,
  `PacketsLostWithBadHeader`).
- No identifier is given twice exactly over runs of at most 2^32 creations (`IdentifiersDistinct`); runs with more exist
  (`ManyCreations`).
- The online list a browser is shown is right exactly when it is not the case that the only user online is called what
  the server says when nobody is: those 24 bytes are a valid name, and the gateway takes them for an empty list
  (`OnlineListArrives`, `SuchAUser`).
- C and JavaScript read the same file announcement exactly when the name ends within its field
  (`BothReadTheName`).

Where the code and its design document differ, the model follows the code. The document has the
server push group deletions (docs/superpowers/specs/2026-06-28-online-temp-groups-design.md:30); the
code pushes nothing for a group that becomes empty, which is why a departure has change events for surviving
groups only. The document promises a change event to all remaining members (line 57); the code
drops it when it does not fit.

## Model

| member | source | states |
|---|---|---|
| MirrorRuns.CacheAgrees | web/server.js:339-446 | over any calm run without failed sends, any number of sessions and other clients, a session that has taken in its packets in flight holds exactly the server's groups with its user, field by field and member by member, and no others |
| MirrorRuns.MoveKeepsConsistent | web/server.js:339-446 | every calm move of the whole system keeps all mirrors, one user per socket, matched queues and unused identifiers |
| MirrorRuns.StepMirrors | server/server.c:325-371 | what one server step sends to any socket takes the session there from the user's old groups to the new ones |
| MirrorRuns.CreateSends | server/server.c:224-231 | without failed sends a creation sends each online member one event, and the creator its OK after it |
| MirrorRuns.CreateMirrors | server/server.c:184-232 | a new group enters the mirrors of exactly its members |
| MirrorRuns.DepartureMirrors | server/server.c:125-145 | after a departure without failed sends another mirror is right if and only if each shared surviving group fits in an event and is among the first 64 that change |
| MissedEvents.SixtyFifthGroupIsMissed | common/group.c:405-412 | from a server without groups: a makes 65 groups with b, whose mirror is right all the time; when a leaves without failed sends it is wrong |
| MissedEvents.SixtyFourGroupsAreTold | common/group.c:405-412 | a makes up to 128 groups with b, whose mirror is right all the time; when a leaves without failed sends it is right if and only if there were at most 64 |
| MissedEvents.LongEventIsMissed | server/server.c:112-114 | from a server without groups: a makes a group with thirty members whose created event fits, and every mirror is right; when a leaves without failed sends every mirror is wrong |
| MissedEvents.LongGroupFits | common/group.c:188-201 | the event of its creation fits in 1024 bytes, that of the departure does not |
| StaleEvents.StaleExactlyAfterFailure | server/server.c:142-144 | any departure, any one failed send in it: another member's mirror ends with a changed group as it is if and only if the member who missed the send is not in it, or it was sent before the failed send and its further change is among the first 64; else with the older group |
| StaleEvents.FirstFailedSend | server/server.c:94-145 | any departure, whatever fails after the first failed send: the member who missed it is cleaned up first, then everybody after it still online is sent the older group; every group of this or a later round that names the one who missed it is out of date |
| StaleEvents.PacketsAround | server/server.c:115-144 | the exact packets that each other member is sent in a departure with one failed send, in order |
| StaleEvents.FirstFailureHasARound | server/server.c:115-144 | whichever send of a departure fails first, it is that to some member in the round of some changed group |
| MirrorRuns.ListMirrors | server/server.c:234-255 | a group list makes the asking session's mirror the user's groups, and leaves all other mirrors right |
| MirrorRuns.MessageMirrors | server/server.c:257-299 | group messages change no mirror of a member, although the gateway writes to its map for each |
| MirrorRuns.NewLoginMirrors | web/server.js:416-421 | an empty mirror is right for a user who just logged in, since offline users are in no group |
| MirrorRuns.LaterEntriesDoNotMatter | web/server.js:411-446 | requests made while packets are in flight do not change what those packets do to the mirror |
| CacheAgreement.MirrorAfterDeparture | web/server.js:368-395 | whatever list of changed groups a mirror is told of after a departure, it is right if and only if the list has every surviving group the two shared |
| CacheAgreement.CopiesReachMembers | server/server.c:115-122 | without failed sends a socket gets one copy exactly when its user is among the members |
| CacheAgreement.LeftReachesMembers | server/server.c:140-144 | the departure events that reach a socket are exactly those of the changed groups that fit and hold its user, in order |
| CacheAgreement.ReliableLeft | server/server.c:125-145 | without failed sends the recursive push of a departure is a plain list of sends |
| ResponseMatching.ResponsesMatch | web/server.js:411-446 | over any orderly run, whatever sends fail, every queue lists exactly the awaited requests not yet answered, in order |
| ResponseMatching.MoveKeepsMatching | web/server.js:555-735 | every orderly move keeps all queues matched |
| ResponseMatching.AnswerIsCredited | web/server.js:411-446 | an arriving OK or ERROR is reported for the very request that caused it |
| ResponseMatching.ServerAnswers | server/server.c:325-371 | whatever sends fail, every packet is answered exactly once and on its own socket, except the four kinds nobody awaits, which are answered if and only if a listed guard refuses them; a closed connection never |
| ResponseMatching.ServedStaysMatched | server/server.c:325-371 | after a request is served the queue is still matched if and only if the request is awaited or no guard refuses it |
| ResponseMatching.ErrorForTheWrongRequest | server/server.c:306-323 | a file announced to somebody not online: its error is credited to the broadcast sent after it |
| ResponseMatching.ErrorForTheWrongRequestAt5 | server/server.c:306-323 | the same with all values given |
| ResponseMatching.OnlineTextFits | common/user.c:316-345 | the online list fails if and only if the names and their separators do not fit |
| ResponseMatching.FailedEncode | web/server.js:654-665 | the filter after a failed encode keeps the queue matched if and only if no other group message is awaited |
| ResponseMatching.NulInGroupId | web/lib/protocol.js:133-136 | a group id with a NUL fails to encode: the entry of the message on its way is dropped and nothing is sent |
| ReadablePackets.NoPacketThrows | web/server.js:325-337 | over any run, no packet the server sends makes the gateway's handler throw, so a chunk's packets are handled as one by one |
| ReadablePackets.StepIsClean | server/server.c:325-371 | every group payload that a step sends is one the gateway can read, whatever arrives and whatever sends fail |
| Gateway.ClientSession.OnData | web/server.js:325-337 | the packets of a chunk in turn, up to the first whose payload throws; those after it are lost |
| Gateway.ChunkStops | web/server.js:325-337 | of a chunk exactly the packets before the first that throws are handled |
| Gateway.ThrowingChangesNothing | web/server.js:366-396 | only packets of the three group kinds throw, and they leave the session as it was |
| ServerSafety.CrossStoreSafety | server/server.c:40-371 | in every state of every run each group member is a registered user who is online, and offline users are in no group, also with several users on one socket |
| ServerSafety.StepKeepsInv | server/server.c:325-371 | every step keeps the invariant across the two stores, whatever sends fail |
| ServerSafety.CleanupCascades | server/server.c:94-145 | a cleanup ends, only takes users offline, restores the invariant, and pays for its sends: at most 64 * 64 events for each user it takes offline |
| ServerSafety.PushChangesCascades | server/server.c:140-144 | the same for the events of one departure |
| ServerSafety.SendEachCascades | server/server.c:108-123 | the same for one packet to a list of members |
| ServerSafety.CreationKeepsInv | server/server.c:213-224 | inserting a group is safe if and only if creator and members are online at that moment |
| ServerSafety.DepartureKeepsInv | server/server.c:125-145 | removing a user from all groups and taking the same user offline keeps the invariant |
| ServerModel.Cleanup | server/server.c:125-145 | the mutual recursion ends, measured by the number of online users, and that number never grows |
| ServerModel.SendEach | server/server.c:115-122 | the number of online users never grows over a round of sends, which is what lets the recursion end |
| ServerRuns.GroupMessageDelivery | server/server.c:257-299 | an accepted message reaches, once each, exactly the snapshot's members still online at their turn, on the sockets they had; which messages are accepted, and with which text, is `Delivery.MessageDelivery` and `MessageRefused` |
| ServerRuns.ExactlyOneCopyEach | server/server.c:290-297 | one copy to each member still online at its turn despite cascades, none to anybody else |
| SharedSockets.CleanupFreesSocket | common/user.c:264-281 | a cleanup frees its socket if and only if the users on it were at most one plus the failed sends to it: always with at most one user, and without failed sends only then |
| SharedSockets.CleanupLoses | server/server.c:94-145 | whatever sends fail, a cleanup takes off every socket exactly one user for being its object and one for each failed send to it, as long as there are any |
| SharedSockets.FreedByFailure | server/server.c:94-145 | two users on a socket, and a failed send to the second frees it |
| StaleEvents.StaleEventAfterNestedCleanup | server/server.c:142-144 | an instance with three members: c is told of the older group after the newer one |
| ServerRuns.RestartRoundTrip | common/user.c:143-217 | after any run from an empty file, loading the file gives the same users in order, with salts and hashes, all offline, if and only if no registration went unsaved |
| ServerRuns.PasswordSurvivesRestart | common/user.c:184-244 | after a registration that succeeded, any further run without unsaved registrations and a restart, a password lets the user in if and only if it is valid and has the same salted digest as the registered one |
| ServerRuns.RegisteredForGood | common/user.c:184-217 | name, salt and hash of a registered user never change |
| ServerRuns.StepRecords | server/server.c:325-371 | only a registration changes the stored users or the file |
| Delivery.RegisterStep | server/server.c:50-60 | a registration is answered OK if and only if name and password are valid, there is a salt, the name is new and the line is written; the new user, the line in the file and the reason of every refusal |
| Delivery.LoginStep | server/server.c:62-72 | a login under a user's name is answered OK if and only if that user is offline and the stored hash is the digest of stored salt and password; then only flag and socket of that user change |
| Delivery.UnknownLogin | server/server.c:62-72 | a login under a name no user has changes nothing and says so |
| Delivery.PlainAnswers | server/server.c:356-365 | logout is a cleanup and an OK, heartbeat an OK, any kind but 1 to 10 and 14 to 16 an error |
| Delivery.AnswerMeaning | server/server.c:43-48 | an answer is one send, which reads as a text from "server" to nobody |
| Delivery.ForwardDelivers | server/server.c:147-163 | a private or file packet goes unchanged, as the first send, to the socket of the online user named; if that succeeds a private message and the end of a file are confirmed and nothing else is sent, and if it fails the socket is cleaned up and the sender told |
| Delivery.ForwardRefused | server/server.c:152-156 | when that user is unknown or offline the only send is an error to the sender, with the reason |
| Delivery.SnapshotMeaning | common/user.c:347-364 | the snapshot is the first users in list order who are online on another socket, and leaves nobody out unless it is full |
| Delivery.BroadcastDelivery | server/server.c:165-182 | whatever sends fail, a broadcast goes unchanged and once each to the first 256 users in list order online on another socket, with the OK last; with nobody there an error is the only send |
| Delivery.OnlineListStep | server/server.c:74-83 | the online list is one packet back: names one to a line in list order, the text for nobody if and only if nobody is online, an error if and only if the lines have 1024 bytes or more |
| Delivery.OnlineNamesMeaning | common/user.c:327-338 | the names listed are those of exactly the online users, in list order |
| Delivery.MessageDelivery | server/server.c:257-299 | a member's message, the text before the first NUL of its data, is sent once to each member still online in turn, which includes everybody online afterwards, and to nobody else; each copy reads as sender, group and exactly that text, and the OK comes last |
| Delivery.MessageRefused | server/server.c:265-288 | otherwise an error is the only send: nobody on the socket, no receiver or data that is empty, too long, unterminated or starts with NUL, no such group, not a member, or too long a payload, in this order |
| Delivery.CreateStep | server/server.c:184-232 | a group is made if and only if 1 to 64 members are named, all online, one of them somebody else, the name valid, at most 64 members in all and fewer than 128 groups: its fields, the events, the OK after them, and the reason of every refusal in order |
| Delivery.CreateUnread | server/server.c:194-204 | a request from nobody, or with data that is empty, too long or unterminated, is refused |
| Delivery.ListStep | server/server.c:234-255 | a group list reads as exactly the user's groups in the order of the store, or is an error if and only if they do not fit |
| Delivery.ListOfNobody | server/server.c:239-243 | without a user on the socket the list is an error |
| EndToEnd.PrivateShows | web/server.js:555-573 | which private messages a browser may send, and what such a message shows the browser that gets it |
| EndToEnd.PrivateArrives | web/server.js:350-357 | a private message to an online user is sent to that user alone, whose browser shows the sender and the text; the sender gets an OK |
| EndToEnd.BroadcastShows | web/server.js:575-593 | which broadcasts a browser may send, and what they show whoever gets them |
| EndToEnd.GroupMessageArrives | web/server.js:380-396 | from browser to browser: every member still online in turn is sent the message once and shown sender, group and exactly the text |
| EndToEnd.LoginArrives | web/server.js:508-534 | a login from a browser logs session and user in, under that name on this socket, if and only if the user is offline and knows the password; the browser is told which |
| EndToEnd.RegisterArrives | web/server.js:508-534 | a registration from a browser is shown as a success if and only if the user was added and saved |
| EndToEnd.OnlineListArrives | web/server.js:344-349 | the asking browser is shown exactly the names of the online users in list order, unless the only one is called what the server says about nobody; then and only then the list is wrong |
| EndToEnd.SuchAUser | web/server.js:346-348 | that name is valid, and a server on which its user alone is online is one |
| EndToEnd.GroupListArrives | web/server.js:595-603 | a group list that fits is shown as exactly the user's groups |
| EndToEnd.EventsShow | web/server.js:373-379 | events are shown as "created" or "member_left" with the group as it then is |
| EndToEnd.CreateAsks | web/lib/protocol.js:119-131 | which groups a browser may ask for, and that the payload is the name and then the others |
| EndToEnd.GroupFromBrowser | web/server.js:605-637 | a group asked for in a browser has the name given, the asking user first and then the names given, each once, in order, without empty ones and the user's own, if and only if at most 63 are left, all online, and there are fewer than 128 groups; else an error and nothing else |
| EndToEnd.FileArrives | web/server.js:668-735 | a file of at most 10 MiB sent from a browser in pieces of 1 to 1024 bytes reaches the browser of an online user under its name with exactly its bytes, when the sends succeed |
| EndToEnd.ActionSent | web/server.js:763-847 | what is sent has the kind number of its action, and sending changes the session's queue only |
| EndToEnd.ActionRefused | web/server.js:508-735 | what is not sent is shown as a failure and changes nothing else, but for the queue after a failed encode |
| EndToEnd.LogoutAsks | web/server.js:793-809 | whoever is logged in sends a logout; other sessions just end |
| EndToEnd.LoginNeeded | web/server.js:536-542 | without a login nothing but registering, logging in and out is sent |
| EndToEnd.AuthAsks | web/server.js:508-527 | which names and passwords are sent, in bytes |
| EndToEnd.FileAsks | web/server.js:668-735 | which file names, sizes and chunks are sent, in bytes |
| EndToEnd.GroupMessageAsks | web/server.js:639-661 | which group messages are sent, and what they carry |
| EndToEnd.MessageNames | web/server.js:382-386 | a message names its group in the mirror, without creator and members if the group was unknown, and leaves everything else |
| ChatServer.Server.CleanupOfflineFd | server/server.c:125-145 | the mutable server does exactly what the model's cleanup does, and ends |
| ChatServer.Server.PushGroupEvent | server/server.c:108-123 | the same for one event to a group |
| ChatServer.Server.SendGroupPayload | server/server.c:94-106 | the same for one send and the cleanup that follows a failure |
| ChatServer.Server.SendToMembers | server/server.c:115-122 | the same for one packet to a list of members |
| ChatServer.Server.OnRegister | server/server.c:50-60 | the handler's new state and reply |
| ChatServer.Server.OnLogin | server/server.c:62-72 | the handler's new state and reply |
| ChatServer.Server.OnOnlineList | server/server.c:74-83 | the list of online names, or an error when it does not fit |
| ChatServer.Server.OnPrivate | server/server.c:147-163 | forwarding to one user; a failed send takes that user offline and is reported back |
| ChatServer.Server.OnGroup | server/server.c:165-182 | the broadcast to everybody else online |
| ChatServer.Server.OnFile | server/server.c:306-323 | forwarding of file packets; only the last is confirmed |
| ChatServer.Server.CheckMembers | server/server.c:206-222 | the loop finds an offline member, or somebody other than the creator, exactly when there is one |
| ChatServer.Server.CheckCreateRequest | server/server.c:194-222 | which creation requests are refused, and with which reply |
| ChatServer.Server.OnGroupCreate | server/server.c:184-232 | the whole creation: checks, insertion, events, reply |
| ChatServer.Server.OnGroupList | server/server.c:234-255 | the group list of the asking user, or an error |
| ChatServer.Server.OnGroupMessage | server/server.c:257-299 | snapshot, membership check, copies, reply |
| ChatServer.Server.ProcessPacket | server/server.c:325-371 | the mutable server steps as the state machine does |
| ChatServer.Server.ClientHandler | server/server.c:373-386 | one connection's packets and its exit path are a run of the state machine |
| GroupModel.ExactRemoval | common/group.c:366-419 | removal leaves exactly what is left of each group, in order, without the emptied ones, and reports exactly the surviving groups that changed |
| GroupModel.RemovedFrom | common/group.c:366-419 | each remaining group comes from one old group: same id, name, creator, same members but one |
| GroupModel.KeptIn | common/group.c:366-419 | a group with another member left is still there |
| GroupModel.RemovalKeepsGroups | common/group.c:366-419 | removal keeps the store well formed and leaves the name in no group |
| GroupModel.CreateMeaning | common/group.c:250-308 | a creation succeeds if and only if names are valid, someone else is named and neither limit is exceeded; members are the creator and then the others as first named |
| GroupModel.CreateError | common/group.c:250-298 | a refused creation is FULL if and only if the names have a 65th before any bad one or only the 128 groups are in the way, and else INVALID |
| GroupModel.FirstSeenInOrder | common/group.c:67-88 | the members keep the order in which they are first named |
| GroupModel.CreatedIsValid | common/group.c:250-308 | the new group is valid and its members are the creator and those named, no others |
| GroupModel.AddMembersIsFirstSeen | common/group.c:67-88 | adding members one by one gives the first occurrences in order, and fails exactly at an invalid name or a 65th member |
| GroupModel.GroupsOkAlways | common/group.c:250-308 | over any run of at most 2^32 creations: at most 128 groups, 1 to 64 distinct valid members each, distinct ids, issued in order |
| GroupModel.IdentifiersComeRound | common/group.c:300-301 | over any run each identifier is issued again 2^32 creations later |
| GroupModel.IdentifiersDistinct | common/group.c:300-301 | no identifier of a run is given twice if and only if it has at most 2^32 creations |
| GroupModel.ManyCreations | common/group.c:250-308 | for every number of creations there is a run that has it |
| GroupModel.FormatIdInjective | common/group.c:300-301 | counters less than 2^32 apart print differently |
| GroupModel.IdentifierExamples | common/group.c:300-301 | "g" and at least six digits, modulo 2^32 |
| GroupModel.NameRules | common/group.c:12-26 | 1 to 31 bytes for names, 1 to 63 for group names, and the bytes that neither may have |
| GroupStore.GroupNode.FindMember | common/group.c:55-65 | position of a valid name, else -1 |
| GroupStore.GroupNode.AddMember | common/group.c:67-88 | appends a new name, ignores a known one, refuses an invalid one or a 65th, in place |
| GroupStore.GroupNode.AddCreatorAndMembers | common/group.c:269-291 | the loop leaves the members the model gives, or its error |
| GroupStore.GroupNode.RemoveMemberAt | common/group.c:90-101 | the shift in place takes out one member and keeps the order of the rest; an index out of range changes nothing |
| GroupStore.GroupStore.Create | common/group.c:250-308 | puts the new group at the head, or changes nothing |
| GroupStore.GroupStore.Link | common/group.c:300-305 | identifier, splice at the head, count and counter |
| GroupStore.GroupStore.GetSnapshot | common/group.c:310-326 | the walk finds the group a search of the list finds |
| GroupStore.GroupStore.CountGroupsOf | common/group.c:344-348 | the first pass counts the user's groups |
| GroupStore.GroupStore.BuildListPayload | common/group.c:328-364 | both passes together write the count and records of exactly the user's groups, head first; or the error for an invalid name or a list that does not fit |
| GroupStore.GroupStore.Unlink | common/group.c:393-402 | splicing out one node leaves the rest of the list as it was |
| GroupStore.GroupStore.RemoveMemberEverywhere | common/group.c:366-419 | the in-place loop leaves the model's groups, reports the first min(k, max) snapshots, and FULL exactly when k exceeds max; an invalid name is refused and changes nothing |
| Payload.GroupPayload.Add | common/group.c:116-130 | appends a field and its terminator, or leaves the buffer alone when it does not fit |
| Payload.GroupPayload.BuildRecord | common/group.c:166-186 | appends the fields of one record until one does not fit |
| Payload.BuildEvent | common/group.c:188-201 | the event's fields, or nothing when they do not fit |
| Payload.BuildMessage | common/group.c:203-220 | the message's fields, or nothing when they do not fit or the text is empty |
| Payload.FillMeaning | common/group.c:116-130 | fields fit if and only if lengths and terminators sum to what is left of the 1024 bytes |
| Payload.ParseFields | common/group.c:132-164 | the C parser gives the fields of exactly the payloads of 1 to 1024 bytes that end in NUL and have at most 128 fields |
| Payload.EncodeFields | web/lib/protocol.js:90-104 | joins NUL-free fields, or throws when one has a NUL or the total exceeds 1024 |
| Payload.BothParsersAgree | web/lib/protocol.js:106-117 | C and JavaScript accept the same payloads of up to 1024 bytes and 128 fields, with the same fields; re-adding them rebuilds the bytes |
| Payload.BuiltPayloadParses | common/group.c:132-164 | what the builder wrote is read back by both sides |
| Payload.DecodeList | web/lib/protocol.js:172-194 | the decoding loop gives the groups of a well-formed list and throws on every other |
| Payload.ListRoundTrip | web/lib/protocol.js:172-194 | whenever a list was built the gateway reads back exactly those groups in order, with printed counts, every field used |
| Payload.EventRoundTrip | web/lib/protocol.js:158-170 | an event reads back as its kind and group |
| Payload.MessageRoundTrip | web/lib/protocol.js:196-202 | a message reads back as group id, name and text |
| Payload.EventMeaning | web/lib/protocol.js:158-170 | an event is read if and only if it is a kind, one record with a right member count and nothing else |
| Payload.ListMeaning | web/lib/protocol.js:172-194 | a list is read if and only if it is empty or a count and that many records with right member counts |
| Payload.MessageMeaning | web/lib/protocol.js:196-202 | a message is read if and only if it has three fields |
| Payload.EventSize | common/group.c:188-201 | an event fits if and only if its field lengths and terminators sum to at most 1024 |
| Payload.SmallGroupsFit | common/group.c:188-201 | every valid group of up to 28 members can be announced |
| Payload.TwentyNineLongNamesDoNotFit | common/group.c:188-201 | with maximal fields 29 members never fit |
| Decimal.PrintedCountParses | web/lib/protocol.js:138-156 | a count printed by the server reads back as the same number |
| Decimal.NumberExamples | web/lib/protocol.js:145-148 | some texts and the numbers they are read as |
| Wire.EncodePacket | web/lib/protocol.js:52-68 | refuses exactly over-long names and data, else writes the C layout |
| Wire.WriteFixedCString | web/lib/protocol.js:42-50 | writes a padded name in place and touches nothing else |
| Wire.FrameLayout | common/protocol.c:55-76 | kind and length in four bytes each, weighing 2^24, 2^16, 2^8 and 1, then two names of 32 bytes, then the data |
| Wire.PacketInitMeaning | common/protocol.c:25-40 | data of up to 1024 bytes is taken, and no more |
| Wire.FrameReencodes | common/protocol.c:55-105 | decoding keeps every bit of a frame |
| Wire.PacketDecoder.Push | web/lib/protocol.js:224-252 | the loop over its buffer reports the packets of the whole frames and keeps the rest, or throws and keeps the bad header |
| Wire.DecodeConserves | web/lib/protocol.js:224-252 | frames and rest are the input; the rest is an incomplete frame under 1096 bytes or starts with an oversize header |
| Wire.CuttingDoesNotMatter | web/lib/protocol.js:221-253 | any cutting reports the same frames and throws if and only if the stream has an oversize header; the frames missing from a throwing run are those of the throwing call |
| Wire.PushRunConserves | web/lib/protocol.js:221-253 | after pushes that did not throw, frames and buffer are all bytes pushed |
| Wire.FramingUnderAnyCutting | web/lib/protocol.js:221-253 | encoded packets come back whole and in order under any cutting |
| Wire.OversizeHeaderSticks | web/lib/protocol.js:230-232 | once a push has thrown every later push throws |
| Wire.PacketsLostWithBadHeader | web/lib/protocol.js:230-232 | a frame completed by the throwing call is lost, though not when it comes in a call of its own |
| Socket.Connection.RecvAll | common/net_utils.c:32-51 | fills the buffer with the next bytes under any short reads and interruptions, or reports failure |
| Socket.Connection.SendAll | common/net_utils.c:11-30 | sends all bytes in order under any short writes, or a prefix and reports failure |
| Socket.Connection.SendPacket | common/protocol.c:55-76 | puts exactly the packet's frame on the stream |
| Socket.Connection.RecvPacket | common/protocol.c:78-105 | takes exactly the first frame, with names cut at the last byte |
| Socket.Connection.ReceiveLoop | server/server.c:373-386 | on a socket that does not fail, under any short reads, the C side receives exactly the frames the gateway's decoder would report, and any list of encoded packets as that list |
| Socket.EncodingsReceived | common/protocol.c:78-105 | packets encoded one after another are received as they were |
| Socket.BothSidesAgree | common/protocol.c:25-40 | a packet with short NUL-free names is the same packet in C and in JavaScript |
| Credentials.BytesToHex | common/crypto_utils.c:48-54 | writes two lower-case digits for each byte and a NUL |
| Credentials.HexToBytes | common/crypto_utils.c:26-46 | accepts exactly even-length hex of the right size, in either case, and writes its bytes |
| Credentials.HexRoundTrip | common/crypto_utils.c:26-54 | bytes written as hex read back as the same bytes |
| Credentials.ToHexDigits | common/crypto_utils.c:48-54 | the high half of each byte first, in the digits 0 to 9 and a to f |
| Credentials.FreshHashVerifies | common/crypto_utils.c:69-114 | a stored hash accepts exactly the passwords with the same salted digest |
| UserModel.HashUsername | common/user.c:10-18 | the 32-bit rolling hash of the name, taken modulo 101 |
| UserModel.BucketExamples | common/user.c:10-18 | buckets of some names, with a byte above 127 |
| UserModel.RecordReadBack | common/user.c:143-182 | a written line reads back as the same user, offline, at the head |
| UserModel.NextLineMeaning | common/user.c:161 | a line ends with the first newline, the 511th byte or the file |
| UserModel.StrTokMeaning | common/user.c:162-164 | a token is what stands between delimiters; those before it are skipped |
| UserModel.PasswordRule | common/user.c:26-29 | 1 to 63 bytes without a newline |
| UserModel.RegistrationAndStorage | common/user.c:184-217 | file and memory agree after a registration if and only if it adds nobody (name, password, salt and unknown name decide) or its line is written |
| UserModel.RegisterMeaning | common/user.c:184-217 | who is added, with what salt and hash and line, and which result, if and only if which condition holds |
| UserModel.LoginMeaning | common/user.c:219-244 | success if and only if the name is that of an offline user who knows the password; each refusal if and only if its reason holds; nothing else changes |
| UserModel.LoadAppends | common/user.c:143-182 | loading a file with one more record gives one more user |
| UserStore.UserStore.FindNode | common/user.c:31-45 | walking one chain finds what a search of the whole list finds |
| UserStore.UserStore.Insert | common/user.c:47-59 | prepending to list and chain keeps both right; a name already in the store is refused |
| UserStore.UserStore.ChainIsFilteredList | common/user.c:31-59 | each chain is the main list filtered by bucket, in list order |
| UserStore.UserStore.BucketHoldsItsUsers | common/user.c:31-59 | each table entry leads to all users of its bucket and no others |
| UserStore.UserStore.RegisterUser | common/user.c:184-217 | the new list, file and result of a registration, with every error case |
| UserStore.UserStore.LogIn | common/user.c:219-244 | sets flag and socket of one user, or reports why not, as the function that `LoginMeaning` is about |
| UserStore.UserStore.LogOutFd | common/user.c:264-281 | takes the first online user of the socket in list order offline, no other |
| UserStore.UserStore.UsernameByFd | common/user.c:366-383 | names the very user that a logout of the socket would pick |
| UserStore.UserStore.FdOf | common/user.c:295-314 | the socket of an online user, or which error |
| UserStore.UserStore.SnapshotOnlineFds | common/user.c:347-364 | the first sockets of other online users, in list order |
| UserStore.UserStore.OnlineList | common/user.c:316-345 | the online names one to a line, or an error when they do not fit |
| UserStore.UserStore.Load | common/user.c:143-182 | reads the file line by line into the list the model gives, or reports that it cannot be opened |
| Gateway.ClientSession.OnPacket | web/server.js:339-409 | queue, mirror, file and browser messages after one packet, in every case of the switch |
| Gateway.ClientSession.OnCommandResponse | web/server.js:411-446 | takes the oldest entry off the queue and does what it stands for |
| Gateway.ClientSession.OnFileBegin | web/server.js:448-471 | starts a file, or refuses and keeps the one in progress |
| Gateway.ClientSession.OnFileChunk | web/server.js:473-485 | appends a chunk to the file in progress |
| Gateway.ClientSession.OnFileEnd | web/server.js:487-506 | hands over the joined chunks, or reports a wrong size |
| Gateway.ClientSession.OnAction | web/server.js:763-847 | session and request after any browser action |
| Gateway.ClientSession.OnCreateGroup | web/server.js:605-637 | which creations are refused, and the entry and packet of the others |
| Gateway.ClientSession.OnGroupMessage | web/server.js:639-666 | the entry queued before encoding, and the filter when encoding throws |
| Gateway.FileBeginRoundTrip | web/lib/protocol.js:204-219 | name and size of a file announcement read back |
| Gateway.FileBeginLayout | web/lib/protocol.js:204-219 | 256 bytes of name, then the size in eight bytes with the lowest first |
| DownloadPath.SanitizeComponent | common/file_utils.c:38-53 | replaces the separators and cuts at the buffer, in place |
| DownloadPath.SanitizedMeaning | common/file_utils.c:44-51 | slashes of both kinds, colons and line ends become underscores, everything else stays |
| DownloadPath.BuildUniqueDownloadPath | common/file_utils.c:55-126 | returns the lowest-numbered candidate that does not exist, and fails only when there is none before tries or buffer run out |
| DownloadPath.FreePathExactly | common/file_utils.c:92-123 | with room in the buffer a free path is found if and only if fewer than 1000 of the candidates exist |
| DownloadPath.FreePathAlwaysFound | common/file_utils.c:92-123 | in particular with fewer than 1000 existing paths |
| DownloadPath.CandidatesDiffer | common/file_utils.c:92-115 | different numbers give different paths |
| DownloadPath.CandidateMeaning | common/file_utils.c:92-115 | directory, sender and file name; from the second candidate on the number stands before the extension |
| DownloadPath.BaseFilenameMeaning | common/file_utils.c:28-36 | the base name is the longest end of the path without a slash |
| DownloadPath.SplitMeaning | common/file_utils.c:66-88 | the extension starts at the last dot that is not the first character; empty names are refused |
| DownloadPath.ChosenStaysInside | common/file_utils.c:55-126 | the path found does not exist yet, fits the buffer, and is a single name inside the directory, without a further slash |
| FileTransfer.SendFile | client/client.c:351-414 | the loop sends begin, non-empty chunks of at most 1024 bytes and end, or nothing above 10 MiB; after a read error or a failed send exactly what came before it is out |
| FileTransfer.ChunksJoin | client/client.c:392-404 | the chunks join back to the file |
| FileTransfer.ChunkSizes | client/client.c:392-404 | all chunks but the last have 1024 bytes |
| FileTransfer.SentNameMeaning | client/client.c:381-382 | the base name of the path is sent as it is, up to 255 bytes |
| FileTransfer.TransferArrives | web/server.js:448-506 | a transfer with no other file packets in between is handed to the browser with exactly its bytes |
| FileTransfer.PiecesArrive | web/server.js:448-506 | the same for pieces of any sizes that sum to the announced one |
| FileTransfer.FilesAreExact | web/server.js:448-506 | over any packets at all, a file is handed over only with exactly the chunks between an accepted begin and the next end, and the announced length |
| FileTransfer.ProgressIsExact | web/server.js:473-485 | over any packets, the progress shown is the number of bytes received |
| FileTransfer.DownloadsHaveRoom | client/client.c:190-195 | the 512-byte path buffer never makes the search fail, whatever name the announcement has |
| FileTransfer.CIncomingFile.OnBegin | client/client.c:176-210 | drops what was in progress, cuts a name that fills its field, and starts a file exactly when announcement, path and file are fine |
| FileTransfer.BothReadTheName | client/client.c:180-185 | C client and gateway read the same announcement if and only if the name ends within its field |
| FileTransfer.CIncomingFile.OnChunk | client/client.c:212-222 | appends what could be written, else gives the file up |
| FileTransfer.CIncomingFile.OnEnd | client/client.c:224-240 | reports complete or wrong size, and closes |
| FileTransfer.CIncomingFile.ReceiveTransfer | client/client.c:242-282 | an uninterrupted transfer leaves exactly the sent bytes in a new file |

## Left out

- CacheAgrees: asks for runs without failed sends, with events that fit, at most 64 changed groups a departure, one login a socket and no answer to a request that is not awaited; `StaleExactlyAfterFailure`, `DepartureMirrors` and `ServedStaysMatched` say exactly what happens otherwise.
- ResponsesMatch: asks that no group message fails to encode while another is awaited and that no request that is not awaited is refused; `FailedEncode` and `ServedStaysMatched` show that the queue is wrong otherwise.
- ClientHandler: takes one connection's packets with nothing of other connections in between; interleavings are runs of `ServerModel.Run` and `ChatSystem.RunSystem`.
- RestartRoundTrip: an append either writes its whole line or nothing; a line cut short by a full disk is not modelled.
- Load: a read error in the middle of the file is not modelled.
- StaleExactlyAfterFailure: one failed send in the whole departure; for any later failures `FirstFailedSend` gives the order of the sends, not the last state of each mirror.
- HandlePacket: a payload that does not decode leaves the session as it was; that the exception also drops the rest of the chunk is `HandleChunk`, and `NoPacketThrows` shows that this server never causes it.
- BuildUniqueDownloadPath: existing files are a set of paths that does not change during the search; links and file systems that ignore case are not modelled.
- FileArrives: the packets of the file reach the server in a row, with nothing of other connections in between; `TransferArrives` allows anything in between at the receiver.
- Mutexes, threads and the two writes of one `send_packet`: handlers and packet sends are atomic steps; `CreationKeepsInv` shows where that matters.
- Memory allocation failure and stack depth.
- SHA-256 and random salts: an uninterpreted function of salt and password, and any 16 bytes.
- The wording of replies: a parameter; only the text for an empty online list is compared with what the gateway expects. The text of an answer is not part of what the browser is shown.
- UTF-8, `trim` and `Number()`: text is bytes, names arrive trimmed, numbers are decimal digits only.
- OnAction: the `check`, `connect_tcp`, `disconnect_tcp` and `listen_udp` actions are not modelled; they answer the browser or open and close sockets.
- Connecting, reconnecting and timeouts of the gateway: a session lives on one connection.
- Socket creation, UDP broadcast, console commands, HTTP, WebSocket transport, browser pages and client menus.
- common/message_queue.c: used by neither server nor client.
- Result and type name tables, `parse_port`: one branch each.
- Disk contents at the end of a download: what was written to the file is recorded, buffering and `fclose` errors are not.
- SendFile: the file does not change size while it is sent.
