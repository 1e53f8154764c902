# Game lobby registry and coordinator of rooms-server, in Dafny

rooms-server is a chat server with rooms. Inside a room, a user can open a short-lived
multiplayer game (Pong or Snakes). Other room members join the game's lobby, and the host
then starts it and finally submits its result. This project models the part of the server
that keeps those lobbies and drives them:

- **The registry** (`GameRepository`). It holds two maps: game id → entry, and username →
  game id. An entry holds the room, the host, the participant set, the game type, the
  configuration and a pending flag. The reverse index keeps every user in at most one game.
  The operations are `open`, `join` (a tentative add that is rolled back when the capacity
  check fails), `leave` (a host's leave tears the game down for everyone), `startGame`,
  `closeGame` and the read accessors.
- **The coordinator** (`GameService`). It dispatches game-opening messages to `open`. It
  rewrites the stored message's type tag on each transition: OPEN→ONGOING on start,
  ONGOING→RESULT on submit, OPEN/ONGOING→ABORT on a leave that empties the roster. It
  persists the message through the message store. When persisting fails, it undoes a join
  with a leave and a leave with a join.
- **The Pong configuration checks**: 2 ≤ maxPlayers ≤ 4 when a game is opened, and
  roster size ≤ maxPlayers on every join.
- **The signup screen** (`RegistrationService.register`): an ordered chain of checks on the
  request's strings before signup is delegated.

Layout, one module per component:

- `wrappers.dfy` (`Wrappers`): `Option` for Java's null, and `Outcome` for a call that
  throws.
- `config.dfy` (`Config`): the game types, `PongConfig` and its two checks, the Snakes
  configuration, and the `GameConfig` union.
- `messages.dfy` (`Messages`): the message type tags, the `Message` record, `Empty`
  (Message.EMPTY), and a (game, phase) view of the tags used as a reference definition.
- `registry.dfy` (`Registry`):
  - the entry and snapshot records;
  - `Lobby`, the two maps as a value, with one function per operation and the invariant
    `Valid`;
  - the class `GameRepository`, whose map fields are updated in place by methods proved to
    follow those functions and to keep `Valid`.
- `registry_lemmas.dfy` (`RegistryLemmas`): what each operation does; the compensation
  inverses; the invariant over every sequence of calls; two scenarios.
- `message_store.dfy` (`Store`): the message store. Lookup by id; an update in place that
  may fail.
- `coordinator.dfy` (`Coordinator`): the `GameService` class, the tag rewrites and their
  lemmas.
- `registration.dfy` (`Registration`): the signup check chain.

The registry invariant (`Lobby.Valid`) has five parts:

- every indexed user `u` points to a live game `id` whose roster holds `u`;
- every participant of a live game `id` is indexed to `id`;
- every host takes part in their own game;
- every live configuration passed its structural check;
- every Pong game is within capacity.

It follows that no user is in two games.

The model follows the code as written. The model follows the code as written and shows these behaviours; the proofs establish them for the model:

- `open` does not check that the message id is free (GameRepository.java:34). An `open`
  under a live id replaces that game and leaves its other participants indexed to it. The
  invariant is proved only for opens under ids that are not live.
- A host's `leave` does not clear the entry's roster (GameRepository.java:64-66), and a
  non-host's `leave` keeps the host. So the snapshot of a successful leave is never empty,
  and the ABORT rewrite at GameService.java:64-69 never fires (`Coordinator.LeaveKeepsTag`).
  The controller's comment (GameController.java:65-67) says a host's leave yields an ABORT
  tag. The code keeps the OPEN or ONGOING tag instead.
- `start` answers null (`None`), not EMPTY, when the registry refuses (GameService.java:81).
- `getGameParticipants` dereferences a missing entry (GameRepository.java:103).
  - `processUnicastRequest` calls it for any id, so it throws for an unknown game.
  - `processBroadcastRequest` calls it after the host check. An unknown game's host reads
    as "" (GameRepository.java:107), and User.EMPTY's username is "" (user/User.java:29).
    So a caller named "" passes the host check on an unknown game, and the lookup throws.
  - Both cases are modelled as `Threw`.
- Compensation after a failed leave restores the registry only for a non-host leave from a
  pending game (`RegistryLemmas.LeaveUndoneByJoin`). After a host's teardown, or a leave
  from a started game, the re-join does nothing (`RegistryLemmas.LeaveCompensationNoop`).

## Model

| member | source | states |
|---|---|---|
| `Config.PongVerifyRange` | src/main/java/net/rooms/RoomsServer/game/config/PongConfig.java:9-14 | the structural check accepts exactly maxPlayers ∈ {2, 3, 4} |
| `Config.PongAdmitsBound` | src/main/java/net/rooms/RoomsServer/game/config/PongConfig.java:16-19 | the capacity check accepts exactly rosters of size ≤ maxPlayers; with a structurally valid config, an accepted roster has at most 4 players |
| `Config.FreshPongGameAdmitted` | src/main/java/net/rooms/RoomsServer/game/config/PongConfig.java:12-19 | a structurally valid Pong config always accepts the roster of a freshly opened game (the host alone) |
| `Config.PongAdmitsMonotone` | src/main/java/net/rooms/RoomsServer/game/config/PongConfig.java:17-19 | once the capacity check rejects a roster, it rejects every superset of it |
| `Config.PongAdmitsShrink` | src/main/java/net/rooms/RoomsServer/game/config/PongConfig.java:17-19 | a subset of an accepted roster is accepted, so removing players keeps a game within capacity |
| `Config.SubsetCardinality` | src/main/java/net/rooms/RoomsServer/game/config/PongConfig.java:18 | a subset of a roster is no larger than the roster (the fact the two previous lemmas use) |
| `Registry.NewEntry` | src/main/java/net/rooms/RoomsServer/game/GameRepository.java:128-130 | a new entry's host is its only participant |
| `Registry.GameRepository.constructor` | src/main/java/net/rooms/RoomsServer/game/GameRepository.java:22-25 | the registry starts with both maps empty, which satisfies the invariant |
| `Registry.GameRepository.Open` | src/main/java/net/rooms/RoomsServer/game/GameRepository.java:27-37 | the new maps and result are those of `Lobby.Open`; the invariant is kept when the id is not live |
| `Registry.GameRepository.Join` | src/main/java/net/rooms/RoomsServer/game/GameRepository.java:39-54 | the tentative add and rollback yield exactly `Lobby.Join`: on rejection the roster is as before; the invariant is kept |
| `Registry.GameRepository.Unindex` | src/main/java/net/rooms/RoomsServer/game/GameRepository.java:65 | removing the roster from the reverse index one user at a time leaves exactly the index minus the roster |
| `Registry.GameRepository.Leave` | src/main/java/net/rooms/RoomsServer/game/GameRepository.java:56-72 | the new maps and snapshot are those of `Lobby.Leave`; the invariant is kept whenever it held before |
| `Registry.GameRepository.StartGame` | src/main/java/net/rooms/RoomsServer/game/GameRepository.java:74-84 | the new maps and snapshot are those of `Lobby.StartGame`; the invariant is kept whenever it held before |
| `Registry.GameRepository.CloseGame` | src/main/java/net/rooms/RoomsServer/game/GameRepository.java:86-96 | the new maps and result are those of `Lobby.CloseGame`; the invariant is kept whenever it held before |
| `Registry.OpenKeepsValid` | src/main/java/net/rooms/RoomsServer/game/GameRepository.java:34-35 | an open under an id that is not live keeps the registry invariant |
| `Registry.JoinKeepsValid` | src/main/java/net/rooms/RoomsServer/game/GameRepository.java:46-52 | join keeps the registry invariant, including Pong capacity |
| `Registry.LeaveKeepsValid` | src/main/java/net/rooms/RoomsServer/game/GameRepository.java:64-70 | both kinds of leave keep the registry invariant: a teardown unindexes the whole roster, and a single leave unindexes only the leaver |
| `Registry.StartGameKeepsValid` | src/main/java/net/rooms/RoomsServer/game/GameRepository.java:82 | starting a game keeps the registry invariant |
| `Registry.CloseGameKeepsValid` | src/main/java/net/rooms/RoomsServer/game/GameRepository.java:93-94 | closing a game keeps the registry invariant |
| `RegistryLemmas.OneGamePerUser` | src/main/java/net/rooms/RoomsServer/game/GameRepository.java:41-52 | under the invariant, a user in the rosters of two live games is in the same game |
| `RegistryLemmas.AccessorDefaults` | src/main/java/net/rooms/RoomsServer/game/GameRepository.java:102-118 | unknown keys read as game id 0, host "" and room 0; a participant's game id is the game that holds them |
| `RegistryLemmas.OpenOutcome` | src/main/java/net/rooms/RoomsServer/game/GameRepository.java:28-36 | open succeeds iff the sender is in no game and the config passes its structural check; then the games map is the old one with a fresh pending entry of the given type, room and config under the message id, the sender as host and only participant, and `usernames[sender] = id`; other games are untouched; otherwise nothing changes |
| `RegistryLemmas.JoinOutcome` | src/main/java/net/rooms/RoomsServer/game/GameRepository.java:40-53 | join succeeds iff the user is in no game, the game is known and pending, and the enlarged roster passes the capacity check; then the games map is the old one with only that entry's roster enlarged by the user (room, type, host, config and state kept), `usernames[user] = id`, and other games are untouched; otherwise nothing changes |
| `RegistryLemmas.LeaveOutcome` | src/main/java/net/rooms/RoomsServer/game/GameRepository.java:57-71 | a user in no game gets null and nothing changes; a host's leave deletes the game and unindexes its roster; anyone else's leave changes the games map only by removing that user from that roster, and removes only that user from the index |
| `RegistryLemmas.StartGameOutcome` | src/main/java/net/rooms/RoomsServer/game/GameRepository.java:75-83 | start succeeds iff the game is known and pending and the caller is its host; then only the pending flag changes; otherwise nothing changes |
| `RegistryLemmas.CloseGameOutcome` | src/main/java/net/rooms/RoomsServer/game/GameRepository.java:87-95 | close succeeds iff the game is known and started and the caller is its host; then the game is deleted and its roster unindexed; a pending game cannot be closed |
| `RegistryLemmas.JoinUndoneByLeave` | src/main/java/net/rooms/RoomsServer/game/GameService.java:51-54 | leave undoes a successful join exactly, because the joiner is never the host |
| `RegistryLemmas.LeaveUndoneByJoin` | src/main/java/net/rooms/RoomsServer/game/GameService.java:71-74 | join undoes a non-host leave from a pending game exactly, when the game's capacity check accepts the roster it had before the leave |
| `RegistryLemmas.LeaveCompensationNoop` | src/main/java/net/rooms/RoomsServer/game/GameRepository.java:42-45 | after a host's teardown, or a leave from a started game, the compensating join is refused and changes nothing |
| `RegistryLemmas.LeaveSnapshotNonEmpty` | src/main/java/net/rooms/RoomsServer/game/GameRepository.java:64-71 | every snapshot a successful leave returns has at least one participant |
| `RegistryLemmas.LeaveTwiceNoop` | src/main/java/net/rooms/RoomsServer/game/GameRepository.java:58-62 | a second leave after a successful one returns null and changes nothing |
| `RegistryLemmas.StepKeepsValid` | src/main/java/net/rooms/RoomsServer/game/GameRepository.java:27-96 | each of the five mutators keeps the invariant, with a free id for open |
| `RegistryLemmas.RunKeepsValid` | src/main/java/net/rooms/RoomsServer/game/GameRepository.java:27-96 | every sequence of registry calls, with free ids for open, keeps the invariant |
| `RegistryLemmas.ReachableStates` | src/main/java/net/rooms/RoomsServer/game/GameRepository.java:46-50 | in every state reachable from the empty registry: no user is in two games, every host is in their game, and every Pong roster has at most maxPlayers ≤ 4 players |
| `RegistryLemmas.CapacityScenario` | src/main/java/net/rooms/RoomsServer/game/GameRepository.java:46-50 | with maxPlayers = 2: alice opens, bob joins, carol is refused, and the roster stays {alice, bob} |
| `RegistryLemmas.HostLeaveScenario` | src/main/java/net/rooms/RoomsServer/game/GameRepository.java:64-66 | alice opens and bob joins; alice's leave empties both maps, and its snapshot still lists both players |
| `Store.MessageStore.constructor` | src/main/java/net/rooms/RoomsServer/message/MessageRepository.java:5-11 | the store starts with the given records, each under its own id |
| `Store.MessageStore.Get` | src/main/java/net/rooms/RoomsServer/message/MessageRepository.java:8 | the record read for an id carries that id |
| `Store.MessageStore.Update` | src/main/java/net/rooms/RoomsServer/message/MessageRepository.java:7 | a successful update overwrites the record with the same id, which must exist; a failed update changes nothing |
| `Coordinator.OpenedGameIsOpenTag` | src/main/java/net/rooms/RoomsServer/game/GameService.java:29-42 | exactly the OPEN tags open a game, of the game they name |
| `Coordinator.StartTagAdvancesOpen` | src/main/java/net/rooms/RoomsServer/game/GameService.java:84-88 | start maps a game's OPEN tag to its ONGOING tag and keeps every other tag |
| `Coordinator.SubmitTagResolvesOngoing` | src/main/java/net/rooms/RoomsServer/game/GameService.java:98-102 | submit maps a game's ONGOING tag to its RESULT tag and keeps every other tag |
| `Coordinator.LeaveTagAbortsWhenEmpty` | src/main/java/net/rooms/RoomsServer/game/GameService.java:64-69 | with an empty roster, leave maps an OPEN or ONGOING tag to the same game's ABORT tag; otherwise the tag is kept |
| `Coordinator.LeaveKeepsTag` | src/main/java/net/rooms/RoomsServer/game/GameService.java:64-70 | on a valid registry the ABORT rewrite never fires, so a successful leave keeps the stored tag |
| `Coordinator.GameService.constructor` | src/main/java/net/rooms/RoomsServer/game/GameService.java:21-27 | the coordinator holds the given registry, store and collaborators |
| `Coordinator.GameService.Handle` | src/main/java/net/rooms/RoomsServer/game/GameService.java:29-42 | a plain message is accepted without touching the registry; a Pong or Snakes OPEN message runs `open` with that game type and the decoded config; any other type is refused with no change |
| `Coordinator.GameService.Join` | src/main/java/net/rooms/RoomsServer/game/GameService.java:44-56 | a missing record throws with no change; a non-room-member or a registry refusal gets EMPTY with no change; otherwise the reply is the record with only its content replaced by the snapshot, persisted, or EMPTY with registry and store exactly as before (compensated) |
| `Coordinator.GameService.Leave` | src/main/java/net/rooms/RoomsServer/game/GameService.java:58-76 | a registry refusal gets EMPTY with no change; otherwise the registry follows `leave`, and the reply is the record with its tag kept and the snapshot as content, persisted; or EMPTY with the store unchanged and the compensating join applied |
| `Coordinator.GameService.Start` | src/main/java/net/rooms/RoomsServer/game/GameService.java:78-92 | a non-host gets EMPTY; a registry refusal gets null; both leave everything unchanged; otherwise the game is started and the reply is the record with the ONGOING tag and the snapshot, whatever the update's outcome |
| `Coordinator.GameService.Submit` | src/main/java/net/rooms/RoomsServer/game/GameService.java:94-106 | unless the registry closes the game, the caller gets EMPTY with no change; otherwise the game is gone and the reply is the record with the RESULT tag and the payload verbatim as content, whatever the update's outcome |
| `Coordinator.LifecycleScenario` | src/main/java/net/rooms/RoomsServer/game/GameService.java:78-106 | open, join, start and submit move the tag OPEN, ONGOING, RESULT; the entry survives start, is deleted with its roster unindexed at submit, and a second submit is refused |
| `Coordinator.GameService.ProcessBroadcastRequest` | src/main/java/net/rooms/RoomsServer/game/GameService.java:116-119 | the host gets the game's whole roster and anyone else the empty set; the call throws exactly for a caller named "" on an unknown game |
| `Coordinator.EmptyUserBroadcast` | src/main/java/net/rooms/RoomsServer/game/GameService.java:116-119 | for the empty user (an unresolved session) a broadcast to an unknown game throws, and on a game whose host is not "" it yields the empty set |
| `Coordinator.GameService.ProcessUnicastRequest` | src/main/java/net/rooms/RoomsServer/game/GameService.java:121-125 | a participant gets the host, who is also a participant, and anyone else ""; the call throws exactly for an unknown game |
| `Registration.UsernameCheckedFirst` | src/main/java/net/rooms/RoomsServer/registration/RegistrationService.java:23 | a username containing `"` yields "Invalid username", whatever the other fields hold |
| `Registration.NicknameCheckedSecond` | src/main/java/net/rooms/RoomsServer/registration/RegistrationService.java:24 | a nickname containing `"` yields its own message exactly when the username is clean |
| `Registration.ShortPasswordBeforeQuote` | src/main/java/net/rooms/RoomsServer/registration/RegistrationService.java:25-26 | once username and nickname are clean, a password shorter than 8 yields "Password is too short", even if it also contains `"` |
| `Registration.SignupOnlyWhenClean` | src/main/java/net/rooms/RoomsServer/registration/RegistrationService.java:23-28 | signup is reached iff all four checks pass, and its answer is then returned; a refused request gets one of the four messages, independent of the user service |

## Left out

- Locking: `@Synchronized` and the unsynchronized read accessors are not modelled. Each registry call is one atomic step, and calls happen one after another.
- JSON: serialization of a snapshot is an arbitrary function (`GameService.toJson`). Decoding a configuration is a given function per configuration record. Malformed JSON, and the exception or null it would produce, is not modelled.
- Room membership: the room collaborator's membership query is a fixed predicate (`GameService.isRoomParticipant`). It ignores database state that changes over time.
- Message store: the JDBC implementation is not part of this model. An update's failure is a nondeterministic choice. A lookup of a missing id is modelled as an exception (`Threw`). Other database exceptions are not modelled.
- Snakes: the Snakes configuration is not part of this model. Its structural check is a given verdict, and its capacity check is a given predicate over the roster only (not the whole entry).
- `GameConfig.type()` and the message type tags that no core code names are not modelled.
- Snapshot order: the snapshot's participant list is a set. Its order (the hash set's iteration order) is not modelled.
- Aliasing: `getGameParticipants` returns the live participant set. The model returns its value, so later mutation seen through that reference is not modelled.
- Integer widths: ids and player counts are unbounded integers. The core only compares and stores them, so no wrap-around arises.
- Registration.Rejection: Java's `String.length()` counts UTF-16 code units, and the model counts characters. A password with characters outside the Basic Multilingual Plane can differ in length by this.
- User and signup: the user service (bcrypt, Spring Security) is not part of this model. Signup is a given function. The user record keeps only nickname and username, and the role is an opaque value passed through.
- Registry.GameRepository.Open: the invariant is promised only for an open under a game id that is not live, because GameRepository.open does not check the id.
- `GameService.getGameID` and `GameService.getRoomID` only delegate. They are covered by the registry accessors (`GameRepository.GetGameID`, `GameRepository.GetRoomID`) and `RegistryLemmas.AccessorDefaults`.
- Controllers (websocket and REST), fan-out delivery and the broadcast self-exclusion loop are not modelled. Neither are the JDBC repositories, `RoomService`, `MessageService`, `UserService`, session listeners, the UDP connection or application start-up. They are I/O or framework plumbing.
- Logging a failed compensation is not modelled. GameService neither logs it nor retries it: the compensating call's result is ignored.
