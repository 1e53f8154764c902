/** Properties of the registry's operations, stated on the `Lobby` value that the
    methods of `GameRepository` are proved to follow. */
module RegistryLemmas {
  import opened Wrappers
  import opened Config
  import opened Messages
  import opened Registry

  /** No user takes part in two live games. */
  lemma OneGamePerUser(l: Lobby, i: int, j: int, u: string)
    requires l.Valid()
    requires i in l.games && u in l.games[i].participants
    requires j in l.games && u in l.games[j].participants
    ensures i == j
  {
    assert l.usernames[u] == i;
  }

  /** The read accessors: unknown keys read as 0, "" and 0, and a participant's game
      id is the game that holds them. */
  lemma AccessorDefaults(l: Lobby, id: int, u: string)
    requires l.Valid()
    ensures u !in l.usernames ==> l.GameIdOf(u) == 0
    ensures id !in l.games ==> l.HostOf(id) == "" && l.RoomOf(id) == 0
    ensures id in l.games && u in l.games[id].participants ==> l.GameIdOf(u) == id
    ensures u in l.usernames ==> u in l.games[l.GameIdOf(u)].participants
  {
  }

  /** open succeeds exactly for a sender in no game with a configuration that passes
      its structural check; it then creates a pending game hosted by the sender alone
      and indexes the sender under the message id, replacing any entry under that id and
      leaving every other game as it was. A failed open changes nothing. */
  lemma OpenOutcome(l: Lobby, message: Message, gameType: GameType, config: GameConfig)
    ensures var (l', ok) := l.Open(message, gameType, config);
      && (ok <==> message.sender !in l.usernames && config.Verify())
      && (!ok ==> l' == l)
      && (ok ==>
            && l'.games == l.games[message.id := NewEntry(message.roomID, message.sender, gameType, config)]
            && l'.games[message.id].state.isPending
            && l'.games[message.id].host == message.sender
            && l'.games[message.id].participants == {message.sender}
            && l'.games[message.id].gameType == gameType
            && l'.usernames == l.usernames[message.sender := message.id])
  {
  }

  /** join succeeds exactly for a user in no game, a known pending game and a roster
      that passes the capacity check with the user in it; the user is then in the
      roster and indexed under the game, the entry is otherwise unchanged (room, type,
      host, configuration, state) and so is every other game. A failed join changes
      nothing: the tentative addition is gone. */
  lemma JoinOutcome(l: Lobby, id: int, username: string)
    ensures var (l', update) := l.Join(id, username);
      && (update.Some? <==>
            && username !in l.usernames
            && id in l.games
            && l.games[id].state.isPending
            && l.games[id].config.Admits(l.games[id].participants + {username}))
      && (update.None? ==> l' == l)
      && (update.Some? ==>
            && l'.games == l.games[id := l.games[id].(participants := l.games[id].participants + {username})]
            && l'.usernames == l.usernames[username := id]
            && update.value.username == username
            && update.value.participants == l'.games[id].participants)
  {
  }

  /** leave has three outcomes: a user in no game, or not in the roster, gets nothing
      and nothing changes; the host's leave deletes the game and unindexes every
      participant; anyone else's leave removes that user from the roster and index
      and leaves every other game as it was. */
  lemma LeaveOutcome(l: Lobby, username: string)
    requires l.Valid()
    ensures var (l', update) := l.Leave(username);
      && (username !in l.usernames ==> update.None? && l' == l)
      && (username in l.usernames ==>
            var id := l.usernames[username];
            var entry := l.games[id];
            && update.Some?
            && update.value.username == username
            && (entry.host == username ==>
                  && l'.games == l.games - {id}
                  && l'.usernames == l.usernames - entry.participants
                  && update.value.participants == entry.participants)
            && (entry.host != username ==>
                  && l'.games == l.games[id := entry.(participants := entry.participants - {username})]
                  && l'.usernames == l.usernames - {username}
                  && update.value.participants == entry.participants - {username}))
  {
  }

  /** startGame succeeds only for the host of a known pending game; it then marks
      the game started and changes nothing else. */
  lemma StartGameOutcome(l: Lobby, id: int, username: string)
    ensures var (l', update) := l.StartGame(id, username);
      && (update.Some? <==> id in l.games && l.games[id].state.isPending && l.games[id].host == username)
      && (update.None? ==> l' == l)
      && (update.Some? ==>
            && l'.games == l.games[id := l.games[id].(state := GameState(false))]
            && l'.usernames == l.usernames
            && update.value.participants == l.games[id].participants)
  {
  }

  /** closeGame succeeds only for the host of a known started game; it then deletes
      the game and unindexes all its participants. A pending game cannot be closed. */
  lemma CloseGameOutcome(l: Lobby, id: int, username: string)
    ensures var (l', closed) := l.CloseGame(id, username);
      && (closed <==> id in l.games && l.games[id].host == username && !l.games[id].state.isPending)
      && (!closed ==> l' == l)
      && (closed ==> l'.games == l.games - {id} && l'.usernames == l.usernames - l.games[id].participants)
  {
  }

  /** A successful join is undone by a leave of the same user: the joiner is never the
      host, so the leave removes exactly what the join added. This is the compensation
      the coordinator runs when persisting a join fails. */
  lemma JoinUndoneByLeave(l: Lobby, id: int, username: string)
    requires l.Valid()
    requires l.Join(id, username).1.Some?
    ensures l.Join(id, username).0.Leave(username) == (l, Some(BuildGameUpdate(l.games[id], username)))
  {
    var l1 := l.Join(id, username).0;
    var entry := l.games[id];
    assert username !in entry.participants;
    assert entry.host != username;
    assert l1.GameIdOf(username) == id;
    assert entry.participants + {username} - {username} == entry.participants;
    assert l1.games[id := entry] == l.games;
    assert l1.usernames - {username} == l.usernames;
  }

  /** A non-host leave from a pending game is undone by a join of the same user,
      provided the game's capacity check accepts its roster as it was before the leave
      (always so for Pong, whose roster the invariant keeps within capacity). */
  lemma LeaveUndoneByJoin(l: Lobby, username: string)
    requires l.Valid()
    requires username in l.usernames
    requires var entry := l.games[l.usernames[username]];
      && entry.host != username
      && entry.state.isPending
      && entry.config.Admits(entry.participants)
    ensures var id := l.usernames[username];
      l.Leave(username).0.Join(id, username).0 == l
  {
    var id := l.usernames[username];
    var entry := l.games[id];
    var l1 := l.Leave(username).0;
    assert l1.Joined(id, username).participants == entry.participants;
    assert l1.CanJoin(id, username);
    assert l1.games[id := entry] == l.games;
    assert l1.usernames[username := id] == l.usernames;
  }

  /** The same compensation is a no-op after a host's leave (the game is gone) and
      after a leave from a started game (join refuses started games). */
  lemma LeaveCompensationNoop(l: Lobby, username: string)
    requires l.Valid()
    requires username in l.usernames
    requires var entry := l.games[l.usernames[username]];
      entry.host == username || !entry.state.isPending
    ensures var id := l.usernames[username];
      var l1 := l.Leave(username).0;
      l1.Join(id, username) == (l1, None)
  {
  }

  /** Every snapshot a successful leave returns holds at least one participant: a
      host's leave reports the roster it tore down, and anyone else's leave keeps the
      host in it. */
  lemma LeaveSnapshotNonEmpty(l: Lobby, username: string)
    requires l.Valid()
    requires l.Leave(username).1.Some?
    ensures l.Leave(username).1.value.participants != {}
  {
    var id := l.GameIdOf(username);
    var entry := l.games[id];
    assert entry.host in l.Leave(username).1.value.participants;
  }

  /** A second leave after a successful one finds the user in no game and changes
      nothing. */
  lemma LeaveTwiceNoop(l: Lobby, username: string)
    requires l.Valid()
    requires l.Leave(username).1.Some?
    ensures var l1 := l.Leave(username).0; l1.Leave(username) == (l1, None)
  {
  }

  /** One registry call, as a value. */
  datatype Op =
    | OpenOp(message: Message, gameType: GameType, config: GameConfig)
    | JoinOp(id: int, username: string)
    | LeaveOp(username: string)
    | StartOp(id: int, username: string)
    | CloseOp(id: int, username: string)

  function Step(l: Lobby, op: Op): Lobby {
    match op
    case OpenOp(m, g, c) => l.Open(m, g, c).0
    case JoinOp(id, u) => l.Join(id, u).0
    case LeaveOp(u) => l.Leave(u).0
    case StartOp(id, u) => l.StartGame(id, u).0
    case CloseOp(id, u) => l.CloseGame(id, u).0
  }

  function Run(l: Lobby, ops: seq<Op>): Lobby
    decreases |ops|
  {
    if ops == [] then l else Run(Step(l, ops[0]), ops[1..])
  }

  /** Every open in the run uses an id that is not live at that point. */
  ghost predicate FreshOpens(l: Lobby, ops: seq<Op>)
    decreases |ops|
  {
    ops != [] ==>
      && (ops[0].OpenOp? ==> ops[0].message.id !in l.games)
      && FreshOpens(Step(l, ops[0]), ops[1..])
  }

  lemma StepKeepsValid(l: Lobby, op: Op)
    requires l.Valid()
    requires op.OpenOp? ==> op.message.id !in l.games
    ensures Step(l, op).Valid()
  {
    match op
    case OpenOp(m, g, c) => OpenKeepsValid(l, m, g, c);
    case JoinOp(id, u) => JoinKeepsValid(l, id, u);
    case LeaveOp(u) => LeaveKeepsValid(l, u);
    case StartOp(id, u) => StartGameKeepsValid(l, id, u);
    case CloseOp(id, u) => CloseGameKeepsValid(l, id, u);
  }

  /** Every sequence of calls (with fresh ids for open) keeps the registry invariant. */
  lemma {:induction false} RunKeepsValid(l: Lobby, ops: seq<Op>)
    requires l.Valid()
    requires FreshOpens(l, ops)
    ensures Run(l, ops).Valid()
    decreases |ops|
  {
    if ops != [] {
      StepKeepsValid(l, ops[0]);
      RunKeepsValid(Step(l, ops[0]), ops[1..]);
    }
  }

  /** From the empty registry, after any sequence of calls with fresh ids for open:
      no user is in two games, every host is in their game, and every Pong game holds
      at most maxPlayers, which is at most four, players. */
  lemma ReachableStates(ops: seq<Op>, i: int, j: int, u: string)
    requires FreshOpens(Lobby(map[], map[]), ops)
    ensures var l := Run(Lobby(map[], map[]), ops);
      && (i in l.games && j in l.games && u in l.games[i].participants && u in l.games[j].participants ==> i == j)
      && (i in l.games ==> l.games[i].host in l.games[i].participants)
      && (i in l.games && l.games[i].config.PongGame? ==>
            |l.games[i].participants| <= l.games[i].config.pong.maxPlayers <= MaxPlayers)
  {
    RunKeepsValid(Lobby(map[], map[]), ops);
    var l := Run(Lobby(map[], map[]), ops);
    if i in l.games {
      assert WithinCapacity(l.games[i]) && l.games[i].config.Verify();
      if j in l.games && u in l.games[i].participants && u in l.games[j].participants {
        OneGamePerUser(l, i, j, u);
      }
    }
  }

  /** Open a capacity-2 Pong game as alice, let bob join, then carol: bob gets in,
      carol is refused and the roster stays {alice, bob}. */
  lemma CapacityScenario(room: int, date: Timestamp)
    ensures
      var open := Message(1, room, PongGameOpen, "alice", "", Some(date));
      var (l1, ok) := Lobby(map[], map[]).Open(open, Pong, PongGame(PongConfig(2, 5)));
      var (l2, bob) := l1.Join(1, "bob");
      var (l3, carol) := l2.Join(1, "carol");
      && ok && bob.Some? && carol.None?
      && l3 == l2 && l2.games[1].participants == {"alice", "bob"}
  {
  }

  /** The host's leave unindexes every participant and deletes the game, even though
      only the host asked to leave. */
  lemma HostLeaveScenario(room: int)
    ensures
      var open := Message(7, room, SnakesGameOpen, "alice", "", None);
      var config := SnakesGame(SnakesConfig(true, (s: set<string>) => true));
      var l1 := Lobby(map[], map[]).Open(open, Snakes, config).0;
      var l2 := l1.Join(7, "bob").0;
      var (l3, update) := l2.Leave("alice");
      && l2.games[7].participants == {"alice", "bob"}
      && l3 == Lobby(map[], map[])
      && update.Some? && update.value.participants == {"alice", "bob"}
  {
  }
}
