/** Per-game-type configuration: a creation-time structural check and a join-time
    capacity check, as PongConfig.java and the game-config interface define them. */
module Config {

  datatype GameType = Pong | Snakes

  /** PongConfig.MAX_PLAYERS and PongConfig.MIN_PLAYERS. */
  const MaxPlayers: int := 4
  const MinPlayers: int := 2

  datatype PongConfig = PongConfig(maxPlayers: int, winScore: int) {

    /** The structural check run once when a game is opened. */
    predicate Verify() {
      maxPlayers <= MaxPlayers && maxPlayers >= MinPlayers
    }

    /** The capacity check run on every join, against the roster that already
        holds the tentative joiner. */
    predicate Admits(participants: set<string>) {
      |participants| <= maxPlayers
    }
  }

  /** The Snakes configuration is not part of this model: its two checks are kept
      as given values, a verdict for the structural check and a predicate over the
      roster for the capacity check. */
  datatype SnakesConfig = SnakesConfig(structurallyValid: bool, admits: set<string> -> bool)

  /** A decoded configuration, tagged by the game it belongs to. */
  datatype GameConfig = PongGame(pong: PongConfig) | SnakesGame(snakes: SnakesConfig) {

    predicate Verify() {
      match this
      case PongGame(p) => p.Verify()
      case SnakesGame(s) => s.structurallyValid
    }

    predicate Admits(participants: set<string>) {
      match this
      case PongGame(p) => p.Admits(participants)
      case SnakesGame(s) => s.admits(participants)
    }
  }

  /** The structural check accepts exactly the player counts 2, 3 and 4. */
  lemma PongVerifyRange(c: PongConfig)
    ensures c.Verify() <==> c.maxPlayers in {2, 3, 4}
  {
  }

  /** The capacity check accepts exactly the rosters no larger than maxPlayers,
      so a structurally valid Pong game never holds more than four players. */
  lemma PongAdmitsBound(c: PongConfig, participants: set<string>)
    requires c.Verify()
    ensures c.Admits(participants) <==> |participants| <= c.maxPlayers
    ensures c.Admits(participants) ==> |participants| <= MaxPlayers
  {
  }

  /** A freshly opened Pong game (the host alone) always passes the capacity check. */
  lemma FreshPongGameAdmitted(c: PongConfig, host: string)
    requires c.Verify()
    ensures c.Admits({host})
  {
  }

  /** A subset is never larger than its superset. */
  lemma {:induction false} SubsetCardinality(s: set<string>, t: set<string>)
    requires s <= t
    ensures |s| <= |t|
  {
    if s != {} {
      var x :| x in s;
      SubsetCardinality(s - {x}, t - {x});
    }
  }

  /** The capacity check is monotone: once it rejects a roster it rejects every
      larger roster. */
  lemma PongAdmitsMonotone(c: PongConfig, s: set<string>, t: set<string>)
    requires !c.Admits(s)
    requires s <= t
    ensures !c.Admits(t)
  {
    SubsetCardinality(s, t);
  }

  /** Shrinking a roster keeps it within capacity. */
  lemma PongAdmitsShrink(c: PongConfig, s: set<string>, t: set<string>)
    requires c.Admits(t)
    requires s <= t
    ensures c.Admits(s)
  {
    SubsetCardinality(s, t);
  }
}
