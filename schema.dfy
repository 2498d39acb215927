/**
 * The four tables of the planning-poker backend, their lookup keys, and the invariants the
 * handlers keep. Row order in a table is insertion order, and every row carries the id the
 * store gave it when it was inserted.
 */
module Schema {
  import opened Wrappers

  /** Document ids. One counter issues them for all four tables, so a larger id means a later insert. */
  type Id = nat

  datatype VotingSystem = Fibonacci | Power

  /** A game is in the lobby until its first round starts; afterwards it mirrors its latest round. */
  datatype GameStatus = Lobby | Voting | Revealed

  /** A round has no lobby state. */
  datatype RoundStatus = Voting | Revealed

  datatype Role = Voter | Spectator

  datatype Game = Game(
    id: Id,
    name: string,
    votingSystem: VotingSystem,
    status: GameStatus,
    currentTopic: Option<string>,
    joinCode: string,
    adminSessionId: string)

  datatype Participant = Participant(
    id: Id,
    gameId: Id,
    displayName: string,
    role: Role,
    sessionId: string,
    isOnline: bool)

  datatype Round = Round(
    id: Id,
    gameId: Id,
    topic: string,
    status: RoundStatus,
    revealedAt: Option<int>)

  datatype Vote = Vote(
    id: Id,
    roundId: Id,
    participantId: Id,
    value: int)

  /** A snapshot of the whole store: the four tables and the next id it will issue. */
  datatype Db = Db(
    games: seq<Game>,
    participants: seq<Participant>,
    rounds: seq<Round>,
    votes: seq<Vote>,
    nextId: Id)

  /** The failures a handler can raise; a failing handler leaves the store as it was. */
  datatype Error =
    | GameNotFound
    | RoundNotFound
    | ParticipantNotFound
    | NotAdmin
    | RoundNotRevealed
    | RoundAlreadyRevealed

  /** What one atomic handler call returns, and the store it leaves behind. */
  datatype Step<T> = Step(result: Result<T, Error>, db: Db)

  /** The game status that mirrors a round status. */
  function Mirror(s: RoundStatus): (g: GameStatus)
    ensures g != Lobby
    ensures g.Voting? <==> s.Voting?
  {
    match s
    case Voting => GameStatus.Voting
    case Revealed => GameStatus.Revealed
  }

  // Keys of the indexes the handlers look rows up by.

  function GameIdIs(id: Id): Game -> bool { (g: Game) => g.id == id }
  function JoinCodeIs(code: string): Game -> bool { (g: Game) => g.joinCode == code }
  function ParticipantIdIs(id: Id): Participant -> bool { (p: Participant) => p.id == id }
  function InGame(gameId: Id): Participant -> bool { (p: Participant) => p.gameId == gameId }
  function SessionIs(gameId: Id, sessionId: string): Participant -> bool {
    (p: Participant) => p.gameId == gameId && p.sessionId == sessionId
  }
  function IsVoter(p: Participant): bool { p.role == Voter }
  function RoundIdIs(id: Id): Round -> bool { (r: Round) => r.id == id }
  function RoundOfGame(gameId: Id): Round -> bool { (r: Round) => r.gameId == gameId }
  function VotingRoundOf(gameId: Id): Round -> bool {
    (r: Round) => r.gameId == gameId && r.status == RoundStatus.Voting
  }
  function VoteIdIsNot(id: Id): Vote -> bool { (v: Vote) => v.id != id }
  function VoteOfRound(roundId: Id): Vote -> bool { (v: Vote) => v.roundId == roundId }
  function VoteNotOfRound(roundId: Id): Vote -> bool { (v: Vote) => v.roundId != roundId }
  function VoteFor(roundId: Id, participantId: Id): Vote -> bool {
    (v: Vote) => v.roundId == roundId && v.participantId == participantId
  }

  /** The values of some votes, in order. */
  function ValuesOf(vs: seq<Vote>): (r: seq<int>)
    ensures |r| == |vs|
  {
    seq(|vs|, i requires 0 <= i < |vs| => vs[i].value)
  }

  function GameKey(g: Game): int { g.id }
  function ParticipantKey(p: Participant): int { p.id }
  function RoundKey(r: Round): int { r.id }
  function VoteKey(v: Vote): int { v.id }

  /** Every row's id was issued before `nextId`, and ids grow along each table (insertion order). */
  predicate WellFormed(d: Db) {
    && (forall i, j :: 0 <= i < j < |d.games| ==> d.games[i].id < d.games[j].id)
    && (forall i :: 0 <= i < |d.games| ==> d.games[i].id < d.nextId)
    && (forall i, j :: 0 <= i < j < |d.participants| ==> d.participants[i].id < d.participants[j].id)
    && (forall i :: 0 <= i < |d.participants| ==> d.participants[i].id < d.nextId)
    && (forall i, j :: 0 <= i < j < |d.rounds| ==> d.rounds[i].id < d.rounds[j].id)
    && (forall i :: 0 <= i < |d.rounds| ==> d.rounds[i].id < d.nextId)
    && (forall i, j :: 0 <= i < j < |d.votes| ==> d.votes[i].id < d.votes[j].id)
    && (forall i :: 0 <= i < |d.votes| ==> d.votes[i].id < d.nextId)
  }

  /** No two games share a join code. */
  predicate JoinCodesUnique(gs: seq<Game>) {
    forall i, j :: 0 <= i < j < |gs| ==> gs[i].joinCode != gs[j].joinCode
  }

  /** At most one participant row per (gameId, sessionId): kept by the upsert in join, not by the index. */
  predicate SessionsUnique(ps: seq<Participant>) {
    forall i, j :: 0 <= i < j < |ps| ==> !(ps[i].gameId == ps[j].gameId && ps[i].sessionId == ps[j].sessionId)
  }

  /** At most one vote per (roundId, participantId): kept by the upsert in cast, not by the index. */
  predicate VotesUnique(vs: seq<Vote>) {
    forall i, j :: 0 <= i < j < |vs| ==> !(vs[i].roundId == vs[j].roundId && vs[i].participantId == vs[j].participantId)
  }

  predicate Consistent(d: Db) {
    WellFormed(d) && JoinCodesUnique(d.games) && SessionsUnique(d.participants) && VotesUnique(d.votes)
  }
}
