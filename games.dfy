/**
 * The game registry: creating a game under a fresh six-character join code, and looking games up.
 * The random characters of a join code are draws supplied by the caller, one index per character.
 */
module Games {
  import opened Wrappers
  import opened Schema
  import Seqs
  import Database
  import Participants

  /** The join-code alphabet: A-Z without I and O, then 2-9. */
  const Alphabet: string := "ABCDEFGHJKLMNPQRSTUVWXYZ23456789"

  const AlphabetSize: nat := 32

  const CodeLength: nat := 6

  /** Six draws, each an index into the alphabet, as `Math.floor(Math.random() * 32)` yields. */
  predicate IsRoll(draws: seq<nat>) {
    |draws| == CodeLength && forall i :: 0 <= i < |draws| ==> draws[i] < AlphabetSize
  }

  /** The characters a join code may hold: letters other than I and O, digits other than 0 and 1. */
  predicate Unambiguous(c: char) {
    ('A' <= c <= 'Z' && c != 'I' && c != 'O') || ('2' <= c <= '9')
  }

  /** A well-shaped join code: six characters, none of them confusable. */
  predicate IsJoinCode(code: string) {
    |code| == CodeLength && forall i :: 0 <= i < |code| ==> Unambiguous(code[i])
  }

  /** The alphabet's `k`-th character, by arithmetic on character codes. */
  function CharAt(k: nat): (c: char)
    requires k < AlphabetSize
    ensures Unambiguous(c)
  {
    if k < 8 then ('A' as int + k) as char
    else if k < 13 then ('A' as int + k + 1) as char
    else if k < 24 then ('A' as int + k + 2) as char
    else ('2' as int + k - 24) as char
  }

  /** The position of an unambiguous character in the alphabet: the inverse of `CharAt`. */
  function Position(c: char): (k: nat)
    requires Unambiguous(c)
    ensures k < AlphabetSize && CharAt(k) == c
  {
    if 'A' <= c <= 'H' then c as int - 'A' as int
    else if 'J' <= c <= 'N' then c as int - 'A' as int - 1
    else if 'P' <= c <= 'Z' then c as int - 'A' as int - 2
    else 24 + (c as int - '2' as int)
  }

  lemma PositionOfCharAt(k: nat)
    requires k < AlphabetSize
    ensures Position(CharAt(k)) == k
  {
  }

  /** The alphabet's `k`-th character is `CharAt(k)`. */
  lemma AlphabetAt(k: nat)
    requires k < AlphabetSize
    ensures |Alphabet| == AlphabetSize && Alphabet[k] == CharAt(k)
  {
  }

  /** The alphabet is exactly the 32 unambiguous characters, each once, in the order `CharAt` gives. */
  lemma AlphabetChars()
    ensures |Alphabet| == AlphabetSize
    ensures forall k :: 0 <= k < AlphabetSize ==> Alphabet[k] == CharAt(k)
    ensures forall c :: Unambiguous(c) ==> c in Alphabet
    ensures 'I' !in Alphabet && 'O' !in Alphabet && '0' !in Alphabet && '1' !in Alphabet
  {
    AlphabetAt(0);
    forall k | 0 <= k < AlphabetSize ensures Alphabet[k] == CharAt(k) {
      AlphabetAt(k);
    }
    forall c | Unambiguous(c) ensures c in Alphabet {
      assert Alphabet[Position(c)] == c;
    }
  }

  /** The join code that a roll selects, character by character. */
  function CodeOf(draws: seq<nat>): (code: string)
    requires IsRoll(draws)
    ensures IsJoinCode(code)
  {
    seq(CodeLength, i requires 0 <= i < CodeLength => CharAt(draws[i]))
  }

  /** The draws a join code was made from: the inverse of `CodeOf`. */
  function DrawsOf(code: string): (draws: seq<nat>)
    requires IsJoinCode(code)
    ensures IsRoll(draws)
  {
    seq(CodeLength, i requires 0 <= i < CodeLength => Position(code[i]))
  }

  /** A join code has six characters from the alphabet, never I, O, 0 or 1, and distinct rolls give distinct codes. */
  lemma CodeOfShape(draws: seq<nat>)
    requires IsRoll(draws)
    ensures |CodeOf(draws)| == 6
    ensures forall i :: 0 <= i < 6 ==> CodeOf(draws)[i] in Alphabet && CodeOf(draws)[i] !in {'I', 'O', '0', '1'}
    ensures DrawsOf(CodeOf(draws)) == draws
  {
    AlphabetChars();
    var code := CodeOf(draws);
    forall i | 0 <= i < CodeLength ensures DrawsOf(code)[i] == draws[i] {
      PositionOfCharAt(draws[i]);
    }
  }

  /** generateJoinCode: builds the code one character at a time. */
  method GenerateJoinCode(draws: seq<nat>) returns (code: string)
    requires IsRoll(draws)
    ensures code == CodeOf(draws)
  {
    code := "";
    for i := 0 to CodeLength
      invariant |code| == i
      invariant forall k :: 0 <= k < i ==> code[k] == CharAt(draws[k])
    {
      AlphabetAt(draws[i]);
      code := code + [Alphabet[draws[i]]];
    }
  }

  /** The game with this id (ctx.db.get). */
  function Get(d: Db, gameId: Id): (r: Option<Game>)
    ensures r.Some? ==> r.value in d.games && r.value.id == gameId
    ensures r.None? <==> forall i :: 0 <= i < |d.games| ==> d.games[i].id != gameId
  {
    Seqs.First(d.games, GameIdIs(gameId))
  }

  /** The game with this join code (index by_joinCode); the match is exact, with no case folding. */
  function GetByJoinCode(d: Db, joinCode: string): (r: Option<Game>)
    ensures r.Some? ==> r.value in d.games && r.value.joinCode == joinCode
    ensures r.None? <==> forall i :: 0 <= i < |d.games| ==> d.games[i].joinCode != joinCode
  {
    Seqs.First(d.games, JoinCodeIs(joinCode))
  }

  /** The effect of create once the join code is chosen: a lobby game and its admin as the first voter. */
  function CreateStep(d: Db, name: string, votingSystem: VotingSystem, adminName: string, sessionId: string,
                      joinCode: string): (s: Step<(Id, string)>)
    ensures s.result.Ok? && s.result.value.1 == joinCode
    ensures s.db.rounds == d.rounds && s.db.votes == d.votes
  {
    var gameId := d.nextId;
    var game := Game(gameId, name, votingSystem, Lobby, None, joinCode, sessionId);
    var admin := Participant(gameId + 1, gameId, adminName, Voter, sessionId, true);
    Step(Ok((gameId, joinCode)),
         d.(games := d.games + [game], participants := d.participants + [admin], nextId := gameId + 2))
  }

  /**
   * After create, the new game is found by its id and by its join code, in the lobby, with no topic,
   * administered by the creator.
   */
  lemma CreateThenLookUp(d: Db, name: string, votingSystem: VotingSystem, adminName: string, sessionId: string,
                         joinCode: string)
    requires WellFormed(d)
    requires GetByJoinCode(d, joinCode).None?
    ensures var s := CreateStep(d, name, votingSystem, adminName, sessionId, joinCode);
            var game := Game(d.nextId, name, votingSystem, Lobby, None, joinCode, sessionId);
            && s.result.value.0 == d.nextId
            && Get(s.db, d.nextId) == Some(game)
            && GetByJoinCode(s.db, joinCode) == Some(game)
  {
    var s := CreateStep(d, name, votingSystem, adminName, sessionId, joinCode);
    assert s.db.games == d.games + [Game(d.nextId, name, votingSystem, Lobby, None, joinCode, sessionId)];
    Seqs.FindAt(s.db.games, GameIdIs(d.nextId), |d.games|);
    Seqs.FindAt(s.db.games, JoinCodeIs(joinCode), |d.games|);
  }

  /** The creator is the one new participant of the game: an online voter. */
  lemma CreateAddsAdmin(d: Db, name: string, votingSystem: VotingSystem, adminName: string, sessionId: string,
                        joinCode: string)
    ensures var s := CreateStep(d, name, votingSystem, adminName, sessionId, joinCode);
            var admin := Participant(d.nextId + 1, d.nextId, adminName, Voter, sessionId, true);
            && s.db.participants == d.participants + [admin]
            && Participants.List(s.db, d.nextId) == Participants.List(d, d.nextId) + [admin]
  {
    var admin := Participant(d.nextId + 1, d.nextId, adminName, Voter, sessionId, true);
    Seqs.FilterAppend(d.participants, [admin], InGame(d.nextId));
  }

  /** create keeps join codes unique, and the other invariants, when the code it uses is unused. */
  lemma CreateKeepsConsistent(d: Db, name: string, votingSystem: VotingSystem, adminName: string, sessionId: string,
                              joinCode: string)
    requires Consistent(d)
    requires GetByJoinCode(d, joinCode).None?
    requires Participants.List(d, d.nextId) == []
    ensures Consistent(CreateStep(d, name, votingSystem, adminName, sessionId, joinCode).db)
  {
  }

  /** A roll whose code no game of `d` uses yet. */
  function FreeRoll(d: Db): seq<nat> -> bool {
    (draws: seq<nat>) => IsRoll(draws) && GetByJoinCode(d, CodeOf(draws)).None?
  }

  /**
   * The re-roll loop of create: draws codes from `rolls` until one is unused in `d`.
   * The code it settles on is that of the first free roll of the stream.
   */
  method PickJoinCode(d: Db, rolls: seq<seq<nat>>) returns (joinCode: string)
    requires forall k :: 0 <= k < |rolls| ==> IsRoll(rolls[k])
    requires Seqs.Find(rolls, FreeRoll(d)).Some?
    ensures joinCode == CodeOf(rolls[Seqs.Find(rolls, FreeRoll(d)).value])
    ensures GetByJoinCode(d, joinCode).None?
  {
    ghost var first := Seqs.Find(rolls, FreeRoll(d)).value;
    var k := 0;
    joinCode := GenerateJoinCode(rolls[0]);
    var existing := GetByJoinCode(d, joinCode);
    while existing.Some?
      invariant 0 <= k <= first
      invariant joinCode == CodeOf(rolls[k])
      invariant existing == GetByJoinCode(d, joinCode)
      decreases first - k
    {
      assert !FreeRoll(d)(rolls[k]);
      k := k + 1;
      joinCode := GenerateJoinCode(rolls[k]);
      existing := GetByJoinCode(d, joinCode);
    }
    assert FreeRoll(d)(rolls[k]);
    assert k == first;
  }

  /** The inserts of create, once the join code is chosen: the game, then its admin participant. */
  method InsertGameAndAdmin(db: Database.Store, name: string, votingSystem: VotingSystem, adminName: string,
                            sessionId: string, joinCode: string) returns (gameId: Id)
    requires db.Valid()
    modifies db
    ensures db.Valid()
    ensures var s := CreateStep(old(db.Snapshot()), name, votingSystem, adminName, sessionId, joinCode);
            s.result == Ok((gameId, joinCode)) && db.Snapshot() == s.db
  {
    ghost var d := db.Snapshot();
    gameId := db.InsertGame(Game(0, name, votingSystem, Lobby, None, joinCode, sessionId));
    var _ := db.InsertParticipant(Participant(0, gameId, adminName, Voter, sessionId, true));
    assert db.games == d.games + [Game(d.nextId, name, votingSystem, Lobby, None, joinCode, sessionId)];
    assert db.participants == d.participants + [Participant(d.nextId + 1, d.nextId, adminName, Voter, sessionId, true)];
  }

  /**
   * create: picks an unused join code, then inserts the game and its admin participant.
   * `rolls` is the caller-supplied stream of random draws; one of its rolls must give a free code.
   */
  method Create(db: Database.Store, name: string, votingSystem: VotingSystem, adminName: string, sessionId: string,
                rolls: seq<seq<nat>>) returns (gameId: Id, joinCode: string)
    requires db.Valid()
    requires forall k :: 0 <= k < |rolls| ==> IsRoll(rolls[k])
    requires Seqs.Find(rolls, FreeRoll(db.Snapshot())).Some?
    modifies db
    ensures db.Valid()
    ensures joinCode == CodeOf(rolls[Seqs.Find(rolls, FreeRoll(old(db.Snapshot()))).value])
    ensures GetByJoinCode(old(db.Snapshot()), joinCode).None?
    ensures var s := CreateStep(old(db.Snapshot()), name, votingSystem, adminName, sessionId, joinCode);
            s.result == Ok((gameId, joinCode)) && db.Snapshot() == s.db
  {
    joinCode := PickJoinCode(db.Snapshot(), rolls);
    gameId := InsertGameAndAdmin(db, name, votingSystem, adminName, sessionId, joinCode);
  }
}
