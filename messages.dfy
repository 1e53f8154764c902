/** Persisted event records (Message.java) and their type tags. */
module Messages {
  import opened Wrappers
  import opened Config

  /** The message type tags the game core reads or writes. */
  datatype MessageType =
    | PlainMessage
    | PongGameOpen | PongGameOngoing | PongGameAbort | PongGameResult
    | SnakesGameOpen | SnakesGameOngoing | SnakesGameAbort | SnakesGameResult

  /** A send date (a LocalDateTime, opaque here). */
  type Timestamp = int

  /** A message record as stored; `sendDate` is None only for the EMPTY sentinel. */
  datatype Message = Message(
    id: int,
    roomID: int,
    msgType: MessageType,
    sender: string,
    content: string,
    sendDate: Option<Timestamp>)

  /** Message.EMPTY, the failure sentinel. */
  const Empty: Message := Message(-1, -1, PlainMessage, "", "", None)

  /** The phase half of a game tag "{game}_{OPEN|ONGOING|ABORT|RESULT}". */
  datatype Phase = Open | Ongoing | Abort | Result

  /** The tag of a game in a phase. */
  function GameTag(game: GameType, phase: Phase): MessageType {
    match (game, phase)
    case (Pong, Open) => PongGameOpen
    case (Pong, Ongoing) => PongGameOngoing
    case (Pong, Abort) => PongGameAbort
    case (Pong, Result) => PongGameResult
    case (Snakes, Open) => SnakesGameOpen
    case (Snakes, Ongoing) => SnakesGameOngoing
    case (Snakes, Abort) => SnakesGameAbort
    case (Snakes, Result) => SnakesGameResult
  }

  /** Splits a tag into its game and phase; a plain chat message has neither. */
  function Classify(t: MessageType): Option<(GameType, Phase)> {
    match t
    case PlainMessage => None
    case PongGameOpen => Some((Pong, Open))
    case PongGameOngoing => Some((Pong, Ongoing))
    case PongGameAbort => Some((Pong, Abort))
    case PongGameResult => Some((Pong, Result))
    case SnakesGameOpen => Some((Snakes, Open))
    case SnakesGameOngoing => Some((Snakes, Ongoing))
    case SnakesGameAbort => Some((Snakes, Abort))
    case SnakesGameResult => Some((Snakes, Result))
  }

  /** Classify and GameTag are inverse: every game tag is named by exactly one
      (game, phase) pair, and only the plain message is not a game tag. */
  lemma ClassifyInvertsGameTag(game: GameType, phase: Phase, t: MessageType)
    ensures Classify(GameTag(game, phase)) == Some((game, phase))
    ensures Classify(t).Some? ==> GameTag(Classify(t).value.0, Classify(t).value.1) == t
    ensures Classify(t).None? <==> t == PlainMessage
  {
  }
}
