/** The in-memory game-lobby registry (GameRepository.java): a map from game id to
    game entry and a reverse index from username to game id that keeps every user in
    at most one game. The registry's two maps are given first as a value, `Lobby`,
    whose functions say what each operation does; the class `GameRepository` then
    holds the two maps as fields and its methods are proved to do exactly that. */
module Registry {
  import opened Wrappers
  import opened Config
  import opened Messages

  /** GameRepository.GameState: whether the game still waits in its lobby. */
  datatype GameState = GameState(isPending: bool)

  datatype GameEntry = GameEntry(
    roomID: int,
    host: string,
    participants: set<string>,
    gameType: GameType,
    config: GameConfig,
    state: GameState)

  /** The entry `open` creates: the sender hosts a pending game and is its only
      participant. */
  function NewEntry(roomID: int, sender: string, gameType: GameType, config: GameConfig): (e: GameEntry)
    ensures e.host in e.participants && |e.participants| == 1
  {
    GameEntry(roomID, sender, {sender}, gameType, config, GameState(true))
  }

  /** The snapshot broadcast on every transition. The source builds a list from the
      participant set; its order is the set's iteration order, so a set is kept. */
  datatype GameUpdate = GameUpdate(config: GameConfig, username: string, participants: set<string>)

  function BuildGameUpdate(entry: GameEntry, username: string): GameUpdate {
    GameUpdate(entry.config, username, entry.participants)
  }

  /** A Pong game never holds more players than its configuration allows. */
  ghost predicate WithinCapacity(e: GameEntry) {
    e.config.PongGame? ==> e.config.Admits(e.participants)
  }

  /** The registry's two maps as one value. */
  datatype Lobby = Lobby(games: map<int, GameEntry>, usernames: map<string, int>) {

    /** The registry invariant: the reverse index names, for each indexed user, a
        live game that holds the user, and holds every participant of every live game;
        each host takes part in their own game; every live configuration passed its
        structural check; every Pong game is within capacity. */
    ghost predicate Valid() {
      && (forall u :: u in usernames ==> usernames[u] in games && u in games[usernames[u]].participants)
      && (forall id, u :: id in games && u in games[id].participants ==> u in usernames && usernames[u] == id)
      && (forall id :: id in games ==> games[id].host in games[id].participants)
      && (forall id :: id in games ==> games[id].config.Verify())
      && (forall id :: id in games ==> WithinCapacity(games[id]))
    }

    /** getGameID: 0 when the user is in no game. */
    function GameIdOf(username: string): int {
      if username in usernames then usernames[username] else 0
    }

    /** getHost: "" for an unknown game. */
    function HostOf(id: int): string {
      if id in games then games[id].host else ""
    }

    /** getRoomID: 0 for an unknown game. */
    function RoomOf(id: int): int {
      if id in games then games[id].roomID else 0
    }

    /** open: refuses a sender already in a game and a configuration that fails its
        structural check; otherwise stores a new pending entry under the message id
        (overwriting whatever was there) and indexes the sender. */
    function Open(message: Message, gameType: GameType, config: GameConfig): (Lobby, bool) {
      if message.sender in usernames then (this, false)
      else if !config.Verify() then (this, false)
      else
        (Lobby(games[message.id := NewEntry(message.roomID, message.sender, gameType, config)],
               usernames[message.sender := message.id]),
         true)
    }

    /** The entry after `username` is added to game `id`. */
    function Joined(id: int, username: string): GameEntry
      requires id in games
    {
      games[id].(participants := games[id].participants + {username})
    }

    /** Whether `join` admits `username` into game `id`. */
    predicate CanJoin(id: int, username: string) {
      && username !in usernames
      && id in games
      && games[id].state.isPending
      && games[id].config.Admits(Joined(id, username).participants)
    }

    /** join: a user in no game enters a known pending game whose capacity check
        accepts the enlarged roster; otherwise nothing changes. */
    function Join(id: int, username: string): (Lobby, Option<GameUpdate>) {
      if !CanJoin(id, username) then (this, None)
      else
        (Lobby(games[id := Joined(id, username)], usernames[username := id]),
         Some(BuildGameUpdate(Joined(id, username), username)))
    }

    /** leave: the host's leave deletes the game and unindexes all its participants;
        anyone else's leave removes only that user. The snapshot is built from the
        entry after the change, whose roster a host leave does not clear. */
    function Leave(username: string): (Lobby, Option<GameUpdate>) {
      var id := GameIdOf(username);
      if id !in games || username !in games[id].participants then (this, None)
      else
        var entry := games[id];
        if entry.host == username then
          (Lobby(games - {id}, usernames - entry.participants), Some(BuildGameUpdate(entry, username)))
        else
          var left := entry.(participants := entry.participants - {username});
          (Lobby(games[id := left], usernames - {username}), Some(BuildGameUpdate(left, username)))
    }

    /** startGame: only the host of a known pending game starts it. */
    function StartGame(id: int, username: string): (Lobby, Option<GameUpdate>) {
      if id !in games || !games[id].state.isPending || games[id].host != username then (this, None)
      else
        var started := games[id].(state := GameState(false));
        (Lobby(games[id := started], usernames), Some(BuildGameUpdate(started, username)))
    }

    /** closeGame: only the host of a known started game closes it, deleting it and
        unindexing all its participants. */
    function CloseGame(id: int, username: string): (Lobby, bool) {
      if id !in games || games[id].host != username || games[id].state.isPending then (this, false)
      else (Lobby(games - {id}, usernames - games[id].participants), true)
    }
  }

  /** The registry as GameRepository keeps it: two maps updated in place. Every method
      runs as one atomic step. */
  class GameRepository {
    var games: map<int, GameEntry>
    var usernames: map<string, int>

    /** The two maps as a value. */
    function State(): Lobby
      reads this
    {
      Lobby(games, usernames)
    }

    ghost predicate Valid()
      reads this
    {
      State().Valid()
    }

    constructor ()
      ensures State() == Lobby(map[], map[])
      ensures Valid()
    {
      games := map[];
      usernames := map[];
    }

    /** The message id becomes the game id. The id is not checked for freshness, so
        the invariant survives only an open under an id that is not live. */
    method Open(message: Message, gameType: GameType, config: GameConfig) returns (ok: bool)
      modifies this
      ensures (State(), ok) == old(State()).Open(message, gameType, config)
      ensures old(Valid()) && message.id !in old(games) ==> Valid()
    {
      if message.sender in usernames {
        return false;
      }
      if !config.Verify() {
        return false;
      }
      games := games[message.id := NewEntry(message.roomID, message.sender, gameType, config)];
      usernames := usernames[message.sender := message.id];
      ok := true;
      if old(Valid()) && message.id !in old(games) {
        OpenKeepsValid(old(State()), message, gameType, config);
      }
    }

    /** Adds the user tentatively, runs the capacity check and takes the addition
        back when the check fails. */
    method Join(id: int, username: string) returns (update: Option<GameUpdate>)
      requires Valid()
      modifies this
      ensures Valid()
      ensures (State(), update) == old(State()).Join(id, username)
    {
      if username in usernames {
        return None;
      }
      if id !in games {
        return None;
      }
      var entry := games[id];
      if !entry.state.isPending {
        return None;
      }
      entry := entry.(participants := entry.participants + {username});
      games := games[id := entry];
      if !entry.config.Admits(entry.participants) {
        entry := entry.(participants := entry.participants - {username});
        games := games[id := entry];
        assert entry == old(games)[id];
        assert games == old(games);
        return None;
      }
      usernames := usernames[username := id];
      update := Some(BuildGameUpdate(entry, username));
      JoinKeepsValid(old(State()), id, username);
    }

    /** Removes every user of `users` from the reverse index, one at a time. */
    method Unindex(users: set<string>)
      modifies this`usernames
      ensures usernames == old(usernames) - users
    {
      var rest := users;
      while rest != {}
        invariant rest <= users
        invariant usernames == old(usernames) - (users - rest)
        decreases rest
      {
        var u :| u in rest;
        usernames := usernames - {u};
        rest := rest - {u};
        assert usernames == old(usernames) - (users - rest);
      }
    }

    method Leave(username: string) returns (update: Option<GameUpdate>)
      modifies this
      ensures old(Valid()) ==> Valid()
      ensures (State(), update) == old(State()).Leave(username)
    {
      var id := GetGameID(username);
      if id !in games {
        return None;
      }
      var entry := games[id];
      if username !in entry.participants {
        return None;
      }
      if entry.host == username {
        Unindex(entry.participants);
        games := games - {id};
      } else {
        entry := entry.(participants := entry.participants - {username});
        games := games[id := entry];
        usernames := usernames - {username};
      }
      update := Some(BuildGameUpdate(entry, username));
      if old(Valid()) {
        LeaveKeepsValid(old(State()), username);
      }
    }

    method StartGame(id: int, username: string) returns (update: Option<GameUpdate>)
      modifies this
      ensures old(Valid()) ==> Valid()
      ensures (State(), update) == old(State()).StartGame(id, username)
    {
      if id !in games {
        return None;
      }
      var entry := games[id];
      if !entry.state.isPending {
        return None;
      }
      if entry.host != username {
        return None;
      }
      entry := entry.(state := GameState(false));
      games := games[id := entry];
      update := Some(BuildGameUpdate(entry, username));
      if old(Valid()) {
        StartGameKeepsValid(old(State()), id, username);
      }
    }

    method CloseGame(id: int, username: string) returns (closed: bool)
      modifies this
      ensures old(Valid()) ==> Valid()
      ensures (State(), closed) == old(State()).CloseGame(id, username)
    {
      if id !in games {
        return false;
      }
      var entry := games[id];
      if entry.host != username {
        return false;
      }
      if entry.state.isPending {
        return false;
      }
      Unindex(entry.participants);
      games := games - {id};
      closed := true;
      if old(Valid()) {
        CloseGameKeepsValid(old(State()), id, username);
      }
    }

    /** GameRepository.getGameParticipants dereferences the entry without a check, so an
        unknown id is a caller error. */
    function GetGameParticipants(id: int): set<string>
      reads this
      requires id in games
    {
      games[id].participants
    }

    function GetHost(id: int): string
      reads this
    {
      State().HostOf(id)
    }

    function GetGameID(username: string): int
      reads this
    {
      State().GameIdOf(username)
    }

    function GetRoomID(id: int): int
      reads this
    {
      State().RoomOf(id)
    }
  }

  // Invariant preservation, one lemma per operation. They live here because the
  // class's methods need them; the properties built on them are in RegistryLemmas.

  lemma OpenKeepsValid(l: Lobby, message: Message, gameType: GameType, config: GameConfig)
    requires l.Valid()
    requires message.id !in l.games
    ensures l.Open(message, gameType, config).0.Valid()
  {
  }

  lemma JoinKeepsValid(l: Lobby, id: int, username: string)
    requires l.Valid()
    ensures l.Join(id, username).0.Valid()
  {
  }

  lemma LeaveKeepsValid(l: Lobby, username: string)
    requires l.Valid()
    ensures l.Leave(username).0.Valid()
  {
    var id := l.GameIdOf(username);
    if id in l.games && username in l.games[id].participants {
      var entry := l.games[id];
      var l' := l.Leave(username).0;
      if entry.host == username {
        forall u | u in l'.usernames
          ensures l'.usernames[u] in l'.games && u in l'.games[l'.usernames[u]].participants
        {
          assert l.usernames[u] != id;
        }
        forall i, u | i in l'.games && u in l'.games[i].participants
          ensures u in l'.usernames && l'.usernames[u] == i
        {
          assert i != id && l.games[i] == l'.games[i];
          assert l.usernames[u] == i;
        }
      } else {
        if entry.config.PongGame? {
          PongAdmitsShrink(entry.config.pong, entry.participants - {username}, entry.participants);
        }
        assert WithinCapacity(l'.games[id]);
      }
    }
  }

  lemma StartGameKeepsValid(l: Lobby, id: int, username: string)
    requires l.Valid()
    ensures l.StartGame(id, username).0.Valid()
  {
  }

  lemma CloseGameKeepsValid(l: Lobby, id: int, username: string)
    requires l.Valid()
    ensures l.CloseGame(id, username).0.Valid()
  {
    var (l', closed) := l.CloseGame(id, username);
    if closed {
      forall u | u in l'.usernames
        ensures l'.usernames[u] in l'.games && u in l'.games[l'.usernames[u]].participants
      {
        assert l.usernames[u] != id;
      }
      forall i, u | i in l'.games && u in l'.games[i].participants
        ensures u in l'.usernames && l'.usernames[u] == i
      {
        assert i != id && l.games[i] == l'.games[i];
        assert l.usernames[u] == i;
      }
    }
  }
}
