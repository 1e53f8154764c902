/** The game coordinator (GameService.java): routes game-opening messages to the
    registry, drives the registry through join, leave, start and submit, rewrites the
    stored message's type tag on each transition, persists it, and undoes a join or a
    leave whose persistence failed. */
module Coordinator {
  import opened Wrappers
  import opened Config
  import opened Messages
  import opened Registry
  import opened RegistryLemmas
  import opened Store

  /** A request naming a game. The session id only identifies the caller upstream. */
  datatype ParticipationRequest = ParticipationRequest(id: int, jSessionID: string)

  /** A request naming a game and carrying an uninterpreted payload. */
  datatype BroadcastRequest = BroadcastRequest(id: int, payload: string, jSessionID: string)

  /** The acting user, reduced to the fields the coordinator reads. */
  datatype User = User(nickname: string, username: string)

  /** User.EMPTY, what an unresolved session yields. */
  const EmptyUser: User := User("", "")

  /** The game whose lobby a message type opens, if any. */
  function OpenedGame(t: MessageType): Option<GameType> {
    match t
    case PongGameOpen => Some(Pong)
    case SnakesGameOpen => Some(Snakes)
    case _ => None
  }

  /** The tag rewrite of `start`. */
  function StartTag(t: MessageType): MessageType {
    match t
    case PongGameOpen => PongGameOngoing
    case SnakesGameOpen => SnakesGameOngoing
    case _ => t
  }

  /** The tag rewrite of `submit`. */
  function SubmitTag(t: MessageType): MessageType {
    match t
    case PongGameOngoing => PongGameResult
    case SnakesGameOngoing => SnakesGameResult
    case _ => t
  }

  /** The tag rewrite of `leave`, applied only when the snapshot's roster is empty. */
  function LeaveTag(t: MessageType, rosterEmpty: bool): MessageType {
    if !rosterEmpty then t
    else
      match t
      case PongGameOpen | PongGameOngoing => PongGameAbort
      case SnakesGameOpen | SnakesGameOngoing => SnakesGameAbort
      case _ => t
  }

  /** Exactly the OPEN tags open a game, and of the game they name. */
  lemma OpenedGameIsOpenTag(t: MessageType, g: GameType)
    ensures OpenedGame(t) == Some(g) <==> Classify(t) == Some((g, Open))
  {
  }

  /** start moves a game's OPEN tag to its ONGOING tag and keeps every other tag. */
  lemma StartTagAdvancesOpen(t: MessageType)
    ensures StartTag(t) ==
      if Classify(t).Some? && Classify(t).value.1 == Open then GameTag(Classify(t).value.0, Ongoing) else t
  {
  }

  /** submit moves a game's ONGOING tag to its RESULT tag and keeps every other tag. */
  lemma SubmitTagResolvesOngoing(t: MessageType)
    ensures SubmitTag(t) ==
      if Classify(t).Some? && Classify(t).value.1 == Ongoing then GameTag(Classify(t).value.0, Result) else t
  {
  }

  /** With an empty roster, leave moves an OPEN or ONGOING tag to the same game's
      ABORT tag; otherwise it keeps the tag. */
  lemma LeaveTagAbortsWhenEmpty(t: MessageType, rosterEmpty: bool)
    ensures LeaveTag(t, rosterEmpty) ==
      if rosterEmpty && Classify(t).Some? && Classify(t).value.1 in {Open, Ongoing}
      then GameTag(Classify(t).value.0, Abort)
      else t
  {
  }

  /** The ABORT rewrite never fires: on a valid registry every snapshot a successful
      leave yields has a participant, so leave always keeps the stored tag, including
      for a host's leave that tears the game down. */
  lemma LeaveKeepsTag(l: Lobby, username: string, t: MessageType)
    requires l.Valid()
    requires l.Leave(username).1.Some?
    ensures LeaveTag(t, l.Leave(username).1.value.participants == {}) == t
  {
    LeaveSnapshotNonEmpty(l, username);
  }

  /** A whole game: open, join, start and submit drive the stored tag from OPEN through
      ONGOING to RESULT, the entry survives until submit and is deleted, with its whole
      roster unindexed, exactly then; a second submit is refused. */
  lemma LifecycleScenario(room: int)
    ensures
      var open := Message(3, room, PongGameOpen, "alice", "", None);
      var (l1, ok) := Lobby(map[], map[]).Open(open, Pong, PongGame(PongConfig(2, 7)));
      var (l2, joined) := l1.Join(3, "bob");
      var (l3, started) := l2.StartGame(3, "alice");
      var (l4, closed) := l3.CloseGame(3, "alice");
      && OpenedGame(open.msgType) == Some(Pong)
      && ok && joined.Some? && started.Some? && closed
      && StartTag(open.msgType) == PongGameOngoing
      && SubmitTag(StartTag(open.msgType)) == PongGameResult
      && 3 in l3.games && !l3.games[3].state.isPending
      && l4 == Lobby(map[], map[])
      && !l4.CloseGame(3, "alice").1
  {
  }

  /** An unresolved session (User.EMPTY) asking to broadcast to an unknown game passes
      the host check, since the unknown game's host also reads as "", and the roster
      lookup then throws; on a known game it receives nothing unless the game's host is
      named "". */
  lemma EmptyUserBroadcast(s: GameService, request: BroadcastRequest)
    ensures request.id !in s.gameRepository.games ==> s.ProcessBroadcastRequest(request, EmptyUser).Threw?
    ensures request.id in s.gameRepository.games && s.gameRepository.games[request.id].host != "" ==>
      s.ProcessBroadcastRequest(request, EmptyUser) == Returned({})
  {
  }

  class GameService {
    const gameRepository: GameRepository
    const messageRepository: MessageStore
    /** The room collaborator's membership query. */
    const isRoomParticipant: (int, string) -> bool
    /** JSON serialization of a snapshot. */
    const toJson: GameUpdate -> string
    /** JSON decoding of the two configuration records. */
    const pongFromJson: string -> PongConfig
    const snakesFromJson: string -> SnakesConfig

    ghost predicate Valid()
      reads gameRepository, messageRepository
    {
      gameRepository.Valid() && messageRepository.Valid()
    }

    constructor (gameRepository: GameRepository, messageRepository: MessageStore,
                 isRoomParticipant: (int, string) -> bool, toJson: GameUpdate -> string,
                 pongFromJson: string -> PongConfig, snakesFromJson: string -> SnakesConfig)
      requires gameRepository.Valid() && messageRepository.Valid()
      ensures Valid()
      ensures this.gameRepository == gameRepository && this.messageRepository == messageRepository
      ensures this.isRoomParticipant == isRoomParticipant && this.toJson == toJson
      ensures this.pongFromJson == pongFromJson && this.snakesFromJson == snakesFromJson
    {
      this.gameRepository := gameRepository;
      this.messageRepository := messageRepository;
      this.isRoomParticipant := isRoomParticipant;
      this.toJson := toJson;
      this.pongFromJson := pongFromJson;
      this.snakesFromJson := snakesFromJson;
    }

    /** The configuration a game-opening message carries, decoded as its game's record. */
    function DecodeConfig(gameType: GameType, content: string): GameConfig {
      match gameType
      case Pong => PongGame(pongFromJson(content))
      case Snakes => SnakesGame(snakesFromJson(content))
    }

    /** A plain message passes untouched; a game-opening message opens a game of its
        type with its decoded configuration; anything else is refused. */
    method Handle(message: Message) returns (accepted: bool)
      requires Valid()
      modifies gameRepository
      ensures message.msgType == PlainMessage ==>
        accepted && gameRepository.State() == old(gameRepository.State())
      ensures OpenedGame(message.msgType).Some? ==>
        var g := OpenedGame(message.msgType).value;
        (gameRepository.State(), accepted) == old(gameRepository.State()).Open(message, g, DecodeConfig(g, message.content))
      ensures message.msgType != PlainMessage && OpenedGame(message.msgType).None? ==>
        !accepted && gameRepository.State() == old(gameRepository.State())
      ensures message.id !in old(gameRepository.games) ==> Valid()
    {
      match message.msgType {
        case PlainMessage =>
          accepted := true;
        case PongGameOpen =>
          accepted := gameRepository.Open(message, Pong, PongGame(pongFromJson(message.content)));
        case SnakesGameOpen =>
          accepted := gameRepository.Open(message, Snakes, SnakesGame(snakesFromJson(message.content)));
        case _ =>
          accepted := false;
      }
    }

    /** Joins the user into the game the request names. The stored record of the game
        is read first (missing: the lookup throws). A user outside the record's room,
        or one the registry refuses, gets EMPTY and nothing changes. Otherwise the
        record's content becomes the new snapshot and is persisted; if persisting
        fails, the join is undone by a leave and the caller gets EMPTY. */
    method Join(request: ParticipationRequest, user: User) returns (reply: Outcome<Message>)
      requires Valid()
      modifies gameRepository, messageRepository
      ensures Valid()
      ensures request.id !in old(messageRepository.messages) ==>
        && reply == Threw
        && gameRepository.State() == old(gameRepository.State())
        && messageRepository.messages == old(messageRepository.messages)
      ensures request.id in old(messageRepository.messages) ==>
        var message := old(messageRepository.messages[request.id]);
        var (joined, update) := old(gameRepository.State()).Join(request.id, user.username);
        if !isRoomParticipant(message.roomID, user.username) || update.None? then
          && reply == Returned(Empty)
          && gameRepository.State() == old(gameRepository.State())
          && messageRepository.messages == old(messageRepository.messages)
        else
          var updated := message.(content := toJson(update.value));
          || (&& reply == Returned(updated)
              && gameRepository.State() == joined
              && messageRepository.messages == old(messageRepository.messages)[request.id := updated])
          || (&& reply == Returned(Empty)
              && gameRepository.State() == old(gameRepository.State())
              && messageRepository.messages == old(messageRepository.messages))
    {
      if request.id !in messageRepository.messages {
        return Threw;
      }
      var message := messageRepository.Get(request.id);
      if !isRoomParticipant(message.roomID, user.username) {
        return Returned(Empty);
      }
      var update := gameRepository.Join(message.id, user.username);
      if update.None? {
        return Returned(Empty);
      }
      var updatedMessage := Message(message.id, message.roomID, message.msgType, message.sender,
                                    toJson(update.value), message.sendDate);
      var ok := messageRepository.Update(updatedMessage);
      if !ok {
        var _ := gameRepository.Leave(user.username);
        JoinUndoneByLeave(old(gameRepository.State()), message.id, user.username);
        return Returned(Empty);
      }
      reply := Returned(updatedMessage);
    }

    /** Takes the user out of their game. A user the registry refuses gets EMPTY and
        nothing changes. Otherwise the game's stored record (missing: the lookup throws
        after the registry has changed) gets the snapshot as content and a tag that is
        rewritten to ABORT only for an empty roster, which never occurs, and is
        persisted; if persisting fails, a join of the user is attempted and the caller
        gets EMPTY. */
    method Leave(username: string) returns (reply: Outcome<Message>)
      requires Valid()
      modifies gameRepository, messageRepository
      ensures Valid()
      ensures
        var l0 := old(gameRepository.State());
        var (left, update) := l0.Leave(username);
        var id := l0.GameIdOf(username);
        && (update.None? ==>
              && reply == Returned(Empty)
              && gameRepository.State() == l0
              && messageRepository.messages == old(messageRepository.messages))
        && (update.Some? && id !in old(messageRepository.messages) ==>
              && reply == Threw
              && gameRepository.State() == left
              && messageRepository.messages == old(messageRepository.messages))
        && (update.Some? && id in old(messageRepository.messages) ==>
              var updated := old(messageRepository.messages[id]).(content := toJson(update.value));
              || (&& reply == Returned(updated)
                  && gameRepository.State() == left
                  && messageRepository.messages == old(messageRepository.messages)[id := updated])
              || (&& reply == Returned(Empty)
                  && gameRepository.State() == left.Join(id, username).0
                  && messageRepository.messages == old(messageRepository.messages)))
    {
      var id := gameRepository.GetGameID(username);
      var update := gameRepository.Leave(username);
      if update.None? {
        return Returned(Empty);
      }
      if id !in messageRepository.messages {
        return Threw;
      }
      var message := messageRepository.Get(id);
      var messageType := LeaveTag(message.msgType, update.value.participants == {});
      LeaveKeepsTag(old(gameRepository.State()), username, message.msgType);
      var updatedMessage := Message(message.id, message.roomID, messageType, message.sender,
                                    toJson(update.value), message.sendDate);
      var ok := messageRepository.Update(updatedMessage);
      if !ok {
        var _ := gameRepository.Join(message.id, username);
        return Returned(Empty);
      }
      reply := Returned(updatedMessage);
    }

    /** Starts the game for its host. A caller who is not the host gets EMPTY; a start
        the registry refuses gets null (None). Otherwise the stored record (missing: the
        lookup throws) gets the ONGOING tag and the snapshot, and its update is
        attempted with the outcome ignored. */
    method Start(request: ParticipationRequest, user: User) returns (reply: Outcome<Option<Message>>)
      requires Valid()
      modifies gameRepository, messageRepository
      ensures Valid()
      ensures
        var l0 := old(gameRepository.State());
        var (started, update) := l0.StartGame(request.id, user.username);
        && (l0.HostOf(request.id) != user.username ==>
              && reply == Returned(Some(Empty))
              && gameRepository.State() == l0
              && messageRepository.messages == old(messageRepository.messages))
        && (l0.HostOf(request.id) == user.username && update.None? ==>
              && reply == Returned(None)
              && gameRepository.State() == l0
              && messageRepository.messages == old(messageRepository.messages))
        && (update.Some? && request.id !in old(messageRepository.messages) ==>
              && reply == Threw
              && gameRepository.State() == started
              && messageRepository.messages == old(messageRepository.messages))
        && (update.Some? && request.id in old(messageRepository.messages) ==>
              var message := old(messageRepository.messages[request.id]);
              var updated := message.(msgType := StartTag(message.msgType), content := toJson(update.value));
              && reply == Returned(Some(updated))
              && gameRepository.State() == started
              && (|| messageRepository.messages == old(messageRepository.messages)
                  || messageRepository.messages == old(messageRepository.messages)[request.id := updated]))
    {
      if gameRepository.GetHost(request.id) != user.username {
        return Returned(Some(Empty));
      }
      var update := gameRepository.StartGame(request.id, user.username);
      if update.None? {
        return Returned(None);
      }
      if request.id !in messageRepository.messages {
        return Threw;
      }
      var message := messageRepository.Get(request.id);
      var updatedMessage := Message(message.id, message.roomID, StartTag(message.msgType), message.sender,
                                    toJson(update.value), message.sendDate);
      var _ := messageRepository.Update(updatedMessage);
      reply := Returned(Some(updatedMessage));
    }

    /** Ends the game with the host's result. Unless the registry closes the game, the
        caller gets EMPTY and nothing changes. Otherwise the stored record (missing: the
        lookup throws) gets the RESULT tag and the payload verbatim as content, and its
        update is attempted with the outcome ignored. */
    method Submit(request: BroadcastRequest, user: User) returns (reply: Outcome<Message>)
      requires Valid()
      modifies gameRepository, messageRepository
      ensures Valid()
      ensures
        var l0 := old(gameRepository.State());
        var (closedState, closed) := l0.CloseGame(request.id, user.username);
        && (!closed ==>
              && reply == Returned(Empty)
              && gameRepository.State() == l0
              && messageRepository.messages == old(messageRepository.messages))
        && (closed && request.id !in old(messageRepository.messages) ==>
              && reply == Threw
              && gameRepository.State() == closedState
              && messageRepository.messages == old(messageRepository.messages))
        && (closed && request.id in old(messageRepository.messages) ==>
              var message := old(messageRepository.messages[request.id]);
              var updated := message.(msgType := SubmitTag(message.msgType), content := request.payload);
              && reply == Returned(updated)
              && gameRepository.State() == closedState
              && (|| messageRepository.messages == old(messageRepository.messages)
                  || messageRepository.messages == old(messageRepository.messages)[request.id := updated]))
    {
      var closed := gameRepository.CloseGame(request.id, user.username);
      if !closed {
        return Returned(Empty);
      }
      if request.id !in messageRepository.messages {
        return Threw;
      }
      var message := messageRepository.Get(request.id);
      var updatedMessage := Message(message.id, message.roomID, SubmitTag(message.msgType), message.sender,
                                    request.payload, message.sendDate);
      var _ := messageRepository.Update(updatedMessage);
      reply := Returned(updatedMessage);
    }

    /** The broadcast targets: the game's whole roster for its host, nothing for anyone
        else. A caller named "" on an unknown game passes the host check (an unknown
        game's host reads as "") and the roster lookup then throws. */
    function ProcessBroadcastRequest(request: BroadcastRequest, user: User): (r: Outcome<set<string>>)
      reads gameRepository
      ensures r.Threw? <==> request.id !in gameRepository.games && user.username == ""
      ensures request.id in gameRepository.games && gameRepository.games[request.id].host == user.username ==>
        r == Returned(gameRepository.games[request.id].participants)
      ensures gameRepository.State().HostOf(request.id) != user.username ==> r == Returned({})
      ensures gameRepository.Valid() && r.Returned? && r.value != {} ==> user.username in r.value
    {
      if gameRepository.GetHost(request.id) != user.username then Returned({})
      else if request.id !in gameRepository.games then Threw
      else Returned(gameRepository.GetGameParticipants(request.id))
    }

    /** The unicast target: the host, for a participant of the game; "" for anyone
        else. The roster lookup throws for an unknown game. */
    function ProcessUnicastRequest(request: BroadcastRequest, user: User): (r: Outcome<string>)
      reads gameRepository
      ensures r.Threw? <==> request.id !in gameRepository.games
      ensures r.Returned? ==>
        var entry := gameRepository.games[request.id];
        r.value == if user.username in entry.participants then entry.host else ""
      ensures gameRepository.Valid() && r.Returned? && user.username in gameRepository.games[request.id].participants ==>
        r.value in gameRepository.games[request.id].participants
    {
      if request.id !in gameRepository.games then Threw
      else if user.username !in gameRepository.GetGameParticipants(request.id) then Returned("")
      else Returned(gameRepository.GetHost(request.id))
    }
  }
}
