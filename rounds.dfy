/**
 * Rounds of estimation: the admin starts a round on a topic, participants vote, and the round
 * is revealed by the admin or automatically once every voter has voted. A revote throws the
 * votes of a revealed round away and opens it again. The game's status mirrors its rounds.
 */
module Rounds {
  import opened Wrappers
  import opened Schema
  import Seqs
  import Database
  import Participants
  import Games
  import Statistics

  /** The round with this id (ctx.db.get). */
  function Get(d: Db, roundId: Id): (r: Option<Round>)
    ensures r.Some? ==> r.value in d.rounds && r.value.id == roundId
    ensures r.None? <==> forall i :: 0 <= i < |d.rounds| ==> d.rounds[i].id != roundId
  {
    Seqs.First(d.rounds, RoundIdIs(roundId))
  }

  /** With unique ids, looking a stored round up by its id finds that round. */
  lemma GetStored(d: Db, r: Round)
    requires WellFormed(d) && r in d.rounds
    ensures Get(d, r.id) == Some(r)
  {
    var k :| 0 <= k < |d.rounds| && d.rounds[k] == r;
    var found := Get(d, r.id).value;
    var m :| 0 <= m < |d.rounds| && d.rounds[m] == found;
  }

  /** The rounds of a game (index by_gameId), oldest first. */
  function OfGame(d: Db, gameId: Id): (r: seq<Round>)
    ensures forall i :: 0 <= i < |r| ==> r[i] in d.rounds && r[i].gameId == gameId
    ensures forall i :: 0 <= i < |d.rounds| && d.rounds[i].gameId == gameId ==> d.rounds[i] in r
  {
    Seqs.Filter(d.rounds, RoundOfGame(gameId))
  }

  /** getCurrent: the first voting round of the game (index by_gameId_status), if any. */
  function GetCurrent(d: Db, gameId: Id): (r: Option<Round>)
    ensures r.Some? ==> r.value in d.rounds && r.value.gameId == gameId && r.value.status == RoundStatus.Voting
    ensures r.None? <==> forall i :: 0 <= i < |d.rounds| ==>
      !(d.rounds[i].gameId == gameId && d.rounds[i].status == RoundStatus.Voting)
  {
    Seqs.First(d.rounds, VotingRoundOf(gameId))
  }

  /** getLatest: the most recently created round of the game, if it has any. */
  function GetLatest(d: Db, gameId: Id): (r: Option<Round>)
    ensures r.Some? ==> r.value in d.rounds && r.value.gameId == gameId
    ensures r.None? <==> forall i :: 0 <= i < |d.rounds| ==> d.rounds[i].gameId != gameId
  {
    var rs := OfGame(d, gameId);
    if rs == [] then None else Some(rs[|rs| - 1])
  }

  /** The votes cast in a round (index by_roundId), in insertion order. */
  function VotesOf(d: Db, roundId: Id): (r: seq<Vote>)
    ensures forall i :: 0 <= i < |r| ==> r[i] in d.votes && r[i].roundId == roundId
    ensures forall i :: 0 <= i < |d.votes| && d.votes[i].roundId == roundId ==> d.votes[i] in r
  {
    Seqs.Filter(d.votes, VoteOfRound(roundId))
  }

  /** A round's votes come in the order of their ids, each vote of the round once and no other. */
  lemma VotesOfExact(d: Db, roundId: Id)
    requires WellFormed(d)
    ensures var r := VotesOf(d, roundId);
            && (forall i, j :: 0 <= i < j < |r| ==> r[i].id < r[j].id)
            && (forall x :: multiset(r)[x] == if x.roundId == roundId then multiset(d.votes)[x] else 0)
  {
    Seqs.FilterIncreasing(d.votes, VoteOfRound(roundId), VoteKey);
    Seqs.FilterMultiplicity(d.votes, VoteOfRound(roundId));
  }

  /** The participants of a game who vote; spectators are left out. */
  function Voters(d: Db, gameId: Id): (r: seq<Participant>)
    ensures forall i :: 0 <= i < |r| ==> r[i] in d.participants && r[i].gameId == gameId && r[i].role == Voter
    ensures forall i :: 0 <= i < |d.participants| ==>
              (d.participants[i].gameId == gameId && d.participants[i].role == Voter ==> d.participants[i] in r)
  {
    var ps := Participants.List(d, gameId);
    var r := Seqs.Filter(ps, IsVoter);
    assert forall i :: 0 <= i < |d.participants| && d.participants[i].gameId == gameId ==>
      exists k :: 0 <= k < |ps| && ps[k] == d.participants[i];
    r
  }

  /** The voters come in the order of their ids, each voter of the game once and no one else. */
  lemma VotersExact(d: Db, gameId: Id)
    requires WellFormed(d)
    ensures var r := Voters(d, gameId);
            && (forall i, j :: 0 <= i < j < |r| ==> r[i].id < r[j].id)
            && (forall x :: multiset(r)[x] == if x.gameId == gameId && x.role == Voter then multiset(d.participants)[x] else 0)
  {
    var ps := Participants.List(d, gameId);
    Participants.ListExact(d, gameId);
    Seqs.FilterIncreasing(ps, IsVoter, ParticipantKey);
    Seqs.FilterMultiplicity(ps, IsVoter);
  }

  /**
   * The auto-reveal threshold: at least as many votes as voters, and at least one voter. A game
   * without voters never reveals by itself, and a round without votes never reaches the threshold.
   */
  predicate AllVoted(voteCount: nat, voterCount: nat): (b: bool)
    ensures voterCount == 0 ==> !b
    ensures b ==> voteCount > 0
  {
    voteCount >= voterCount && voterCount > 0
  }

  /** The game has at most one round in voting. */
  predicate AtMostOneVotingRound(rounds: seq<Round>, gameId: Id) {
    forall i, j :: 0 <= i < j < |rounds| && VotingRoundOf(gameId)(rounds[i]) ==> !VotingRoundOf(gameId)(rounds[j])
  }

  /** No game has two rounds in voting at once. */
  predicate OneVotingRoundPerGame(rounds: seq<Round>) {
    forall i, j :: 0 <= i < j < |rounds| && rounds[i].status == RoundStatus.Voting && rounds[j].status == RoundStatus.Voting
      ==> rounds[i].gameId != rounds[j].gameId
  }

  /** The pair of patches that reveals a round: the round at `ri` and its game at `gi`, and nothing else. */
  function Close(d: Db, ri: nat, gi: nat, now: int): (e: Db)
    requires ri < |d.rounds| && gi < |d.games|
    ensures |e.rounds| == |d.rounds| && |e.games| == |d.games|
    ensures e.rounds[ri].status == RoundStatus.Revealed && e.rounds[ri].revealedAt == Some(now)
    ensures e.rounds[ri] == d.rounds[ri].(status := e.rounds[ri].status, revealedAt := e.rounds[ri].revealedAt)
    ensures e.games[gi] == d.games[gi].(status := GameStatus.Revealed)
    ensures forall k :: 0 <= k < |d.rounds| && k != ri ==> e.rounds[k] == d.rounds[k]
    ensures forall k :: 0 <= k < |d.games| && k != gi ==> e.games[k] == d.games[k]
    ensures e.participants == d.participants && e.votes == d.votes && e.nextId == d.nextId
  {
    d.(rounds := d.rounds[ri := d.rounds[ri].(status := RoundStatus.Revealed, revealedAt := Some(now))],
       games := d.games[gi := d.games[gi].(status := GameStatus.Revealed)])
  }

  /** The rounds after start has closed the game's current round, if it has one, at `now`. */
  function CloseCurrent(rounds: seq<Round>, gameId: Id, now: int): (r: seq<Round>)
    ensures |r| == |rounds|
    ensures forall i :: 0 <= i < |r| ==> r[i].id == rounds[i].id && r[i].gameId == rounds[i].gameId
  {
    match Seqs.Find(rounds, VotingRoundOf(gameId))
    case None => rounds
    case Some(ri) => rounds[ri := rounds[ri].(status := RoundStatus.Revealed, revealedAt := Some(now))]
  }

  /** The effect of start; `now` is the clock reading of the call. */
  function StartStep(d: Db, gameId: Id, topic: string, sessionId: string, now: int): (s: Step<Id>)
    ensures s.result == Err(GameNotFound) <==> Games.Get(d, gameId).None?
    ensures s.result == Err(NotAdmin) <==>
              Games.Get(d, gameId).Some? && Games.Get(d, gameId).value.adminSessionId != sessionId
    ensures s.result.Err? ==> s.db == d
  {
    match Seqs.Find(d.games, GameIdIs(gameId))
    case None => Step(Err(GameNotFound), d)
    case Some(gi) =>
      if d.games[gi].adminSessionId != sessionId then Step(Err(NotAdmin), d)
      else
        var id := d.nextId;
        var game := d.games[gi].(status := GameStatus.Voting, currentTopic := Some(topic));
        Step(Ok(id), d.(rounds := CloseCurrent(d.rounds, gameId, now) + [Round(id, gameId, topic, RoundStatus.Voting, None)],
                        games := d.games[gi := game],
                        nextId := id + 1))
  }

  /** The effect of reveal: a no-op on a round already revealed, otherwise admin only. */
  function RevealStep(d: Db, roundId: Id, sessionId: string, now: int): (s: Step<()>)
    ensures s.result == Err(RoundNotFound) <==> Get(d, roundId).None?
    ensures s.result.Err? ==> s.db == d
  {
    match Seqs.Find(d.rounds, RoundIdIs(roundId))
    case None => Step(Err(RoundNotFound), d)
    case Some(ri) =>
      var round := d.rounds[ri];
      if round.status == RoundStatus.Revealed then Step(Ok(()), d)
      else
        match Seqs.Find(d.games, GameIdIs(round.gameId))
        case None => Step(Err(GameNotFound), d)
        case Some(gi) =>
          if d.games[gi].adminSessionId != sessionId then Step(Err(NotAdmin), d)
          else Step(Ok(()), Close(d, ri, gi, now))
  }

  /** The patches of a revote: the round's votes go, the round and its game return to voting. */
  function Reopen(d: Db, ri: nat, gi: nat): (e: Db)
    requires ri < |d.rounds| && gi < |d.games|
    ensures |e.rounds| == |d.rounds| && |e.games| == |d.games|
    ensures e.rounds[ri].status == RoundStatus.Voting && e.rounds[ri].revealedAt.None?
    ensures e.rounds[ri] == d.rounds[ri].(status := e.rounds[ri].status, revealedAt := e.rounds[ri].revealedAt)
    ensures e.games[gi] == d.games[gi].(status := GameStatus.Voting)
    ensures forall k :: 0 <= k < |d.rounds| && k != ri ==> e.rounds[k] == d.rounds[k]
    ensures forall k :: 0 <= k < |d.games| && k != gi ==> e.games[k] == d.games[k]
    ensures forall v :: v in e.votes <==> v in d.votes && v.roundId != d.rounds[ri].id
    ensures e.participants == d.participants && e.nextId == d.nextId
  {
    d.(votes := Seqs.Filter(d.votes, VoteNotOfRound(d.rounds[ri].id)),
       rounds := d.rounds[ri := d.rounds[ri].(status := RoundStatus.Voting, revealedAt := None)],
       games := d.games[gi := d.games[gi].(status := GameStatus.Voting)])
  }

  /** The effect of revote: only on a revealed round, admin only. */
  function RevoteStep(d: Db, roundId: Id, sessionId: string): (s: Step<()>)
    ensures s.result == Err(RoundNotFound) <==> Get(d, roundId).None?
    ensures s.result == Err(RoundNotRevealed) <==> Get(d, roundId).Some? && Get(d, roundId).value.status == RoundStatus.Voting
    ensures s.result.Err? ==> s.db == d
  {
    match Seqs.Find(d.rounds, RoundIdIs(roundId))
    case None => Step(Err(RoundNotFound), d)
    case Some(ri) =>
      var round := d.rounds[ri];
      assert Get(d, roundId) == Some(round);
      if round.status != RoundStatus.Revealed then
        assert round.status == RoundStatus.Voting;
        assert Get(d, roundId).Some? && Get(d, roundId).value.status == RoundStatus.Voting;
        Step(Err(RoundNotRevealed), d)
      else
        match Seqs.Find(d.games, GameIdIs(round.gameId))
        case None => Step(Err(GameNotFound), d)
        case Some(gi) =>
          if d.games[gi].adminSessionId != sessionId then Step(Err(NotAdmin), d)
          else Step(Ok(()), Reopen(d, ri, gi))
  }

  /** The effect of autoReveal: reveals a voting round once every voter has voted; anyone may call it. */
  function AutoRevealStep(d: Db, roundId: Id, now: int): (s: Step<()>)
    ensures s.result.Err? ==> s.result.error == GameNotFound && s.db == d
  {
    match Seqs.Find(d.rounds, RoundIdIs(roundId))
    case None => Step(Ok(()), d)
    case Some(ri) =>
      var round := d.rounds[ri];
      if round.status == RoundStatus.Revealed then Step(Ok(()), d)
      else if !AllVoted(|VotesOf(d, roundId)|, |Voters(d, round.gameId)|) then Step(Ok(()), d)
      else
        match Seqs.Find(d.games, GameIdIs(round.gameId))
        case None => Step(Err(GameNotFound), d)
        case Some(gi) => Step(Ok(()), Close(d, ri, gi, now))
  }

  /** One entry of the history: a round, how many votes it has, and their average in tenths. */
  datatype RoundSummary = RoundSummary(round: Round, voteCount: nat, averageTenths: int)

  /**
   * A round with its vote count and the average of its values, whatever its status: the average of
   * a round still voting is computed from values that getForRound hides.
   */
  function Summary(d: Db, r: Round): (e: RoundSummary)
    ensures e.round == r && e.voteCount == |VotesOf(d, r.id)|
    ensures VotesOf(d, r.id) == [] ==> e.averageTenths == 0
    ensures VotesOf(d, r.id) != [] ==>
              var values := ValuesOf(VotesOf(d, r.id));
              10 * Statistics.Min(values) <= e.averageTenths <= 10 * Statistics.Max(values)
  {
    var vs := VotesOf(d, r.id);
    if vs == [] then RoundSummary(r, 0, Statistics.AverageTenths([]))
    else
      Statistics.AverageWithinRange(ValuesOf(vs));
      RoundSummary(r, |vs|, Statistics.AverageTenths(ValuesOf(vs)))
  }

  /** listHistory: the rounds of the game, newest first, each with its vote count and average. */
  function ListHistory(d: Db, gameId: Id): (r: seq<RoundSummary>)
    ensures |r| == |OfGame(d, gameId)|
  {
    NewestFirst(d, OfGame(d, gameId))
  }

  /** The summaries of some rounds, the last round first. */
  function NewestFirst(d: Db, rs: seq<Round>): (r: seq<RoundSummary>)
    ensures |r| == |rs|
  {
    seq(|rs|, i requires 0 <= i < |rs| => Summary(d, rs[|rs| - 1 - i]))
  }

  // ---------------------------------------------------------------------------------------------
  // Queries

  /** In a table whose ids increase, the last row has the largest id. */
  lemma LastHasLargestId(rs: seq<Round>)
    requires rs != [] && forall i, j :: 0 <= i < j < |rs| ==> RoundKey(rs[i]) < RoundKey(rs[j])
    ensures forall r :: r in rs ==> r.id <= rs[|rs| - 1].id
  {
    forall r | r in rs ensures r.id <= rs[|rs| - 1].id {
      var k :| 0 <= k < |rs| && rs[k] == r;
      if k < |rs| - 1 {
        assert RoundKey(rs[k]) < RoundKey(rs[|rs| - 1]);
      }
    }
  }

  /** The latest round is the one with the largest id among the game's rounds. */
  lemma LatestIsNewest(d: Db, gameId: Id)
    requires WellFormed(d)
    ensures var r := GetLatest(d, gameId);
            r.Some? ==> forall i :: 0 <= i < |d.rounds| && d.rounds[i].gameId == gameId ==> d.rounds[i].id <= r.value.id
  {
    var rs := OfGame(d, gameId);
    if rs != [] {
      Seqs.FilterIncreasing(d.rounds, RoundOfGame(gameId), RoundKey);
      LastHasLargestId(rs);
    }
  }

  /** Entry `i` of the history summarises the `i`-th newest round. */
  lemma HistoryAt(d: Db, gameId: Id, i: nat)
    requires i < |ListHistory(d, gameId)|
    ensures var rs := OfGame(d, gameId);
            ListHistory(d, gameId)[i] == Summary(d, rs[|rs| - 1 - i])
  {
    NewestFirstAt(d, OfGame(d, gameId), i);
  }

  lemma NewestFirstAt(d: Db, rs: seq<Round>, i: nat)
    requires i < |rs|
    ensures NewestFirst(d, rs)[i] == Summary(d, rs[|rs| - 1 - i])
  {
  }

  /** The round of entry `i` of the history is the `i`-th newest round. */
  lemma HistoryRoundAt(d: Db, gameId: Id, i: nat)
    requires i < |ListHistory(d, gameId)|
    ensures var rs := OfGame(d, gameId);
            ListHistory(d, gameId)[i].round == rs[|rs| - 1 - i]
  {
    HistoryAt(d, gameId, i);
  }

  /** The history is newest first: ids strictly decrease along it. */
  lemma HistoryNewestFirst(d: Db, gameId: Id)
    requires WellFormed(d)
    ensures var h := ListHistory(d, gameId);
            forall i, j :: 0 <= i < j < |h| ==> h[i].round.id > h[j].round.id
  {
    var rs := OfGame(d, gameId);
    var h := ListHistory(d, gameId);
    Seqs.FilterIncreasing(d.rounds, RoundOfGame(gameId), RoundKey);
    forall i, j | 0 <= i < j < |h| ensures h[i].round.id > h[j].round.id {
      HistoryRoundAt(d, gameId, i);
      HistoryRoundAt(d, gameId, j);
      assert RoundKey(rs[|rs| - 1 - j]) < RoundKey(rs[|rs| - 1 - i]);
    }
  }

  /** The history lists exactly the rounds of the game. */
  lemma HistoryListsRounds(d: Db, gameId: Id)
    ensures var h := ListHistory(d, gameId);
            && (forall i :: 0 <= i < |h| ==> h[i].round in d.rounds && h[i].round.gameId == gameId)
            && (forall i :: 0 <= i < |d.rounds| && d.rounds[i].gameId == gameId ==>
                  exists k :: 0 <= k < |h| && h[k].round == d.rounds[i])
  {
    var rs := OfGame(d, gameId);
    var h := ListHistory(d, gameId);
    forall i | 0 <= i < |h| ensures h[i].round in d.rounds && h[i].round.gameId == gameId {
      HistoryRoundAt(d, gameId, i);
    }
    forall i | 0 <= i < |d.rounds| && d.rounds[i].gameId == gameId
      ensures exists k :: 0 <= k < |h| && h[k].round == d.rounds[i]
    {
      var m :| 0 <= m < |rs| && rs[m] == d.rounds[i];
      HistoryRoundAt(d, gameId, |rs| - 1 - m);
    }
  }

  /** The history is empty exactly when the game has no rounds, and otherwise opens with the latest one. */
  lemma HistoryStartsWithLatest(d: Db, gameId: Id)
    ensures var h := ListHistory(d, gameId);
            && (h == [] <==> GetLatest(d, gameId).None?)
            && (h != [] ==> h[0].round == GetLatest(d, gameId).value)
  {
    if ListHistory(d, gameId) != [] {
      HistoryAt(d, gameId, 0);
    }
  }

  /** Each history entry counts the round's votes and averages them as getStats does, between the extremes. */
  lemma HistoryAverage(d: Db, gameId: Id, i: nat)
    requires i < |ListHistory(d, gameId)|
    ensures var e := ListHistory(d, gameId)[i];
            var values := ValuesOf(VotesOf(d, e.round.id));
            && e.voteCount == |values|
            && (values == [] ==> e.averageTenths == 0)
            && (values != [] ==> e.averageTenths == Statistics.StatsOf(values).averageTenths
                                 && 10 * Statistics.Min(values) <= e.averageTenths <= 10 * Statistics.Max(values))
  {
    HistoryAt(d, gameId, i);
    var e := ListHistory(d, gameId)[i];
    var values := ValuesOf(VotesOf(d, e.round.id));
    if values != [] {
      Statistics.AverageWithinRange(values);
    }
  }

  /** A game's current round is the head of its voting rounds. */
  lemma CurrentIsFirstVoting(d: Db, gameId: Id)
    ensures var vr := Seqs.Filter(d.rounds, VotingRoundOf(gameId));
            GetCurrent(d, gameId) == if vr == [] then None else Some(vr[0])
  {
    Seqs.FirstIsFilterHead(d.rounds, VotingRoundOf(gameId));
  }

  // ---------------------------------------------------------------------------------------------
  // start

  /** A successful start is the admin's: it returns the next id and points the game at the new topic. */
  lemma StartUpdatesGame(d: Db, gameId: Id, topic: string, sessionId: string, now: int)
    requires WellFormed(d)
    requires StartStep(d, gameId, topic, sessionId, now).result.Ok?
    ensures var s := StartStep(d, gameId, topic, sessionId, now);
            var game := Games.Get(d, gameId).value;
            && s.result == Ok(d.nextId)
            && game.adminSessionId == sessionId
            && Games.Get(s.db, gameId) == Some(game.(status := GameStatus.Voting, currentTopic := Some(topic)))
            && |s.db.games| == |d.games|
            && (forall k :: 0 <= k < |d.games| && d.games[k].id != gameId ==> s.db.games[k] == d.games[k])
            && s.db.nextId == d.nextId + 1
            && s.db.participants == d.participants && s.db.votes == d.votes
  {
    var s := StartStep(d, gameId, topic, sessionId, now);
    var gi := Seqs.Find(d.games, GameIdIs(gameId)).value;
    Seqs.FindAt(s.db.games, GameIdIs(gameId), gi);
  }

  /** The round start appends is a voting round on the topic under the next id, and the game's latest. */
  lemma StartAppendsRound(d: Db, gameId: Id, topic: string, sessionId: string, now: int)
    requires WellFormed(d)
    requires StartStep(d, gameId, topic, sessionId, now).result.Ok?
    ensures var s := StartStep(d, gameId, topic, sessionId, now);
            var newRound := Round(d.nextId, gameId, topic, RoundStatus.Voting, None);
            && s.db.rounds == CloseCurrent(d.rounds, gameId, now) + [newRound]
            && Get(s.db, d.nextId) == Some(newRound)
            && GetLatest(s.db, gameId) == Some(newRound)
  {
    var s := StartStep(d, gameId, topic, sessionId, now);
    var newRound := Round(d.nextId, gameId, topic, RoundStatus.Voting, None);
    var mid := CloseCurrent(d.rounds, gameId, now);
    var gi := Seqs.Find(d.games, GameIdIs(gameId)).value;
    assert s.db.rounds == mid + [newRound];
    LatestOfAppend(mid, newRound);
    Seqs.FindAt(s.db.rounds, RoundIdIs(d.nextId), |d.rounds|);
  }

  /** Appending a round of the game makes it the last of the game's rounds. */
  lemma LatestOfAppend(rounds: seq<Round>, r: Round)
    ensures var rs := Seqs.Filter(rounds + [r], RoundOfGame(r.gameId));
            rs != [] && rs[|rs| - 1] == r
  {
    Seqs.FilterAppend(rounds, [r], RoundOfGame(r.gameId));
    assert Seqs.Filter([r], RoundOfGame(r.gameId)) == [r] by {
      assert [r][1..] == [];
    }
  }

  /** Start closes the game's current round, if there is one, revealing it at `now`. */
  lemma StartClosesCurrent(d: Db, gameId: Id, topic: string, sessionId: string, now: int)
    requires WellFormed(d)
    requires StartStep(d, gameId, topic, sessionId, now).result.Ok?
    requires GetCurrent(d, gameId).Some?
    ensures var s := StartStep(d, gameId, topic, sessionId, now);
            var current := GetCurrent(d, gameId).value;
            Get(s.db, current.id) == Some(current.(status := RoundStatus.Revealed, revealedAt := Some(now)))
  {
    var s := StartStep(d, gameId, topic, sessionId, now);
    var ri := Seqs.Find(d.rounds, VotingRoundOf(gameId)).value;
    Seqs.FindAt(s.db.rounds, RoundIdIs(d.rounds[ri].id), ri);
  }

  /**
   * Closing the current round touches only a voting round of that game, and leaves a game that had
   * at most one voting round with none at all.
   */
  lemma CloseCurrentLeavesNoVoting(rounds: seq<Round>, gameId: Id, now: int)
    requires AtMostOneVotingRound(rounds, gameId)
    ensures var r := CloseCurrent(rounds, gameId, now);
            && (forall i :: 0 <= i < |r| && !VotingRoundOf(gameId)(rounds[i]) ==> r[i] == rounds[i])
            && (forall i :: 0 <= i < |r| && r[i].status == RoundStatus.Voting ==> r[i] == rounds[i])
            && (forall i :: 0 <= i < |r| ==> !VotingRoundOf(gameId)(r[i]))
  {
  }

  /** Closing the current round keeps at most one voting round per game. */
  lemma CloseCurrentKeepsOneVotingRound(rounds: seq<Round>, gameId: Id, now: int)
    requires OneVotingRoundPerGame(rounds)
    ensures OneVotingRoundPerGame(CloseCurrent(rounds, gameId, now))
  {
  }

  /** One voting round per game gives at most one for any given game. */
  lemma OneVotingRoundEach(rounds: seq<Round>, gameId: Id)
    requires OneVotingRoundPerGame(rounds)
    ensures AtMostOneVotingRound(rounds, gameId)
  {
  }

  /** Appending a round to a game that has no voting round keeps at most one voting round per game. */
  lemma AppendKeepsOneVotingRound(rounds: seq<Round>, r: Round)
    requires OneVotingRoundPerGame(rounds)
    requires forall i :: 0 <= i < |rounds| ==> !VotingRoundOf(r.gameId)(rounds[i])
    ensures OneVotingRoundPerGame(rounds + [r])
  {
    var t := rounds + [r];
    forall i, j | 0 <= i < j < |t| && t[i].status == RoundStatus.Voting && t[j].status == RoundStatus.Voting
      ensures t[i].gameId != t[j].gameId
    {
      if j == |rounds| {
        assert !VotingRoundOf(r.gameId)(rounds[i]);
      }
    }
  }

  /** When a game has at most one voting round before start, it has exactly one afterwards: the new round, now current. */
  lemma StartLeavesOneVotingRound(d: Db, gameId: Id, topic: string, sessionId: string, now: int)
    requires WellFormed(d) && AtMostOneVotingRound(d.rounds, gameId)
    requires StartStep(d, gameId, topic, sessionId, now).result.Ok?
    ensures var s := StartStep(d, gameId, topic, sessionId, now);
            var newRound := Round(d.nextId, gameId, topic, RoundStatus.Voting, None);
            && Seqs.Filter(s.db.rounds, VotingRoundOf(gameId)) == [newRound]
            && GetCurrent(s.db, gameId) == Some(newRound)
  {
    var newRound := Round(d.nextId, gameId, topic, RoundStatus.Voting, None);
    StartAppendsRound(d, gameId, topic, sessionId, now);
    CloseCurrentLeavesNoVoting(d.rounds, gameId, now);
    OnlyVotingRound(CloseCurrent(d.rounds, gameId, now), newRound);
  }

  /** Appending a voting round to rounds none of which is a voting round of its game makes it the only one. */
  lemma OnlyVotingRound(rounds: seq<Round>, r: Round)
    requires r.status == RoundStatus.Voting
    requires forall i :: 0 <= i < |rounds| ==> !VotingRoundOf(r.gameId)(rounds[i])
    ensures Seqs.Filter(rounds + [r], VotingRoundOf(r.gameId)) == [r]
    ensures Seqs.First(rounds + [r], VotingRoundOf(r.gameId)) == Some(r)
  {
    var p := VotingRoundOf(r.gameId);
    Seqs.FilterAppend(rounds, [r], p);
    Seqs.FilterNoneAt(rounds, p);
    assert Seqs.Filter([r], p) == [r] by {
      assert [r][1..] == [];
    }
    assert [] + [r] == [r];
    Seqs.FindAt(rounds + [r], p, |rounds|);
  }

  /** Start keeps at most one voting round per game. */
  lemma StartKeepsOneVotingRound(d: Db, gameId: Id, topic: string, sessionId: string, now: int)
    requires WellFormed(d) && OneVotingRoundPerGame(d.rounds)
    ensures OneVotingRoundPerGame(StartStep(d, gameId, topic, sessionId, now).db.rounds)
  {
    var s := StartStep(d, gameId, topic, sessionId, now);
    if s.result.Ok? {
      var newRound := Round(d.nextId, gameId, topic, RoundStatus.Voting, None);
      var mid := CloseCurrent(d.rounds, gameId, now);
      StartAppendsRound(d, gameId, topic, sessionId, now);
      OneVotingRoundEach(d.rounds, gameId);
      CloseCurrentLeavesNoVoting(d.rounds, gameId, now);
      CloseCurrentKeepsOneVotingRound(d.rounds, gameId, now);
      AppendKeepsOneVotingRound(mid, newRound);
    }
  }

  // ---------------------------------------------------------------------------------------------
  // reveal

  /** Revealing a round that is already revealed succeeds for anyone and changes nothing. */
  lemma RevealAlreadyRevealed(d: Db, roundId: Id, sessionId: string, now: int)
    requires Get(d, roundId).Some? && Get(d, roundId).value.status == RoundStatus.Revealed
    ensures RevealStep(d, roundId, sessionId, now) == Step(Ok(()), d)
  {
    var ri := Seqs.Find(d.rounds, RoundIdIs(roundId)).value;
    assert Get(d, roundId) == Some(d.rounds[ri]);
  }

  /** Only the game's admin can reveal a voting round. */
  lemma RevealNeedsAdmin(d: Db, roundId: Id, sessionId: string, now: int)
    requires Get(d, roundId).Some? && Get(d, roundId).value.status == RoundStatus.Voting
    requires Games.Get(d, Get(d, roundId).value.gameId).Some?
    ensures var s := RevealStep(d, roundId, sessionId, now);
            s.result.Ok? <==> Games.Get(d, Get(d, roundId).value.gameId).value.adminSessionId == sessionId
  {
    var ri := Seqs.Find(d.rounds, RoundIdIs(roundId)).value;
    assert Get(d, roundId) == Some(d.rounds[ri]);
    var gi := Seqs.Find(d.games, GameIdIs(d.rounds[ri].gameId)).value;
    assert Games.Get(d, d.rounds[ri].gameId) == Some(d.games[gi]);
  }

  /** The admin's reveal marks the round revealed at `now` and moves its game to revealed; nothing else changes. */
  lemma RevealByAdmin(d: Db, roundId: Id, now: int)
    requires Get(d, roundId).Some? && Get(d, roundId).value.status == RoundStatus.Voting
    requires Games.Get(d, Get(d, roundId).value.gameId).Some?
    ensures var round := Get(d, roundId).value;
            var game := Games.Get(d, round.gameId).value;
            var s := RevealStep(d, roundId, game.adminSessionId, now);
            && s.result == Ok(())
            && Get(s.db, roundId) == Some(round.(status := RoundStatus.Revealed, revealedAt := Some(now)))
            && Games.Get(s.db, round.gameId) == Some(game.(status := GameStatus.Revealed))
            && |s.db.rounds| == |d.rounds| && |s.db.games| == |d.games|
            && (forall k :: 0 <= k < |d.rounds| && d.rounds[k].id != roundId ==> s.db.rounds[k] == d.rounds[k])
            && (forall k :: 0 <= k < |d.games| && d.games[k].id != round.gameId ==> s.db.games[k] == d.games[k])
            && s.db.participants == d.participants && s.db.votes == d.votes && s.db.nextId == d.nextId
  {
    var ri := Seqs.Find(d.rounds, RoundIdIs(roundId)).value;
    var round := d.rounds[ri];
    assert Get(d, roundId) == Some(round);
    var gi := Seqs.Find(d.games, GameIdIs(round.gameId)).value;
    assert Games.Get(d, round.gameId) == Some(d.games[gi]);
    var s := RevealStep(d, roundId, d.games[gi].adminSessionId, now);
    assert s.db == Close(d, ri, gi, now);
    Seqs.FindUpdate(d.rounds, RoundIdIs(roundId), ri, round.(status := RoundStatus.Revealed, revealedAt := Some(now)));
    Seqs.FindUpdate(d.games, GameIdIs(round.gameId), gi, d.games[gi].(status := GameStatus.Revealed));
  }

  /** Reveal is idempotent: a second reveal, by anyone, changes nothing. */
  lemma RevealTwice(d: Db, roundId: Id, sessionId: string, other: string, now: int, later: int)
    requires RevealStep(d, roundId, sessionId, now).result.Ok?
    ensures var s := RevealStep(d, roundId, sessionId, now);
            RevealStep(s.db, roundId, other, later) == Step(Ok(()), s.db)
  {
    var round := Get(d, roundId).value;
    if round.status == RoundStatus.Revealed {
      RevealAlreadyRevealed(d, roundId, sessionId, now);
      RevealAlreadyRevealed(d, roundId, other, later);
    } else {
      RevealNeedsAdmin(d, roundId, sessionId, now);
      RevealByAdmin(d, roundId, now);
      RevealAlreadyRevealed(RevealStep(d, roundId, sessionId, now).db, roundId, other, later);
    }
  }

  // ---------------------------------------------------------------------------------------------
  // revote

  /** After a revote no vote of the round is left, and every other round keeps its votes. */
  lemma ReopenClearsVotes(d: Db, ri: nat, gi: nat)
    requires ri < |d.rounds| && gi < |d.games|
    ensures var e := Reopen(d, ri, gi);
            && VotesOf(e, d.rounds[ri].id) == []
            && forall other :: other != d.rounds[ri].id ==> VotesOf(e, other) == VotesOf(d, other)
  {
    var roundId := d.rounds[ri].id;
    var kept := Seqs.Filter(d.votes, VoteNotOfRound(roundId));
    Seqs.FilterNone(kept, VoteOfRound(roundId));
    forall other | other != roundId
      ensures Seqs.Filter(kept, VoteOfRound(other)) == Seqs.Filter(d.votes, VoteOfRound(other))
    {
      Seqs.FilterFilter(d.votes, VoteNotOfRound(roundId), VoteOfRound(other), VoteOfRound(other));
    }
  }

  /**
   * A successful revote is the admin's, on a revealed round: the round is voting again with no
   * reveal time, its votes are gone, and its game is voting again.
   */
  lemma RevoteReopens(d: Db, roundId: Id, sessionId: string)
    requires RevoteStep(d, roundId, sessionId).result.Ok?
    ensures var s := RevoteStep(d, roundId, sessionId);
            var round := Get(d, roundId).value;
            var game := Games.Get(d, round.gameId).value;
            && round.status == RoundStatus.Revealed && game.adminSessionId == sessionId
            && Get(s.db, roundId) == Some(round.(status := RoundStatus.Voting, revealedAt := None))
            && Games.Get(s.db, round.gameId) == Some(game.(status := GameStatus.Voting))
            && VotesOf(s.db, roundId) == []
            && (forall other :: other != roundId ==> VotesOf(s.db, other) == VotesOf(d, other))
            && |s.db.rounds| == |d.rounds| && |s.db.games| == |d.games|
            && (forall k :: 0 <= k < |d.rounds| && d.rounds[k].id != roundId ==> s.db.rounds[k] == d.rounds[k])
            && (forall k :: 0 <= k < |d.games| && d.games[k].id != round.gameId ==> s.db.games[k] == d.games[k])
            && s.db.participants == d.participants && s.db.nextId == d.nextId
  {
    var ri := Seqs.Find(d.rounds, RoundIdIs(roundId)).value;
    var round := d.rounds[ri];
    assert Get(d, roundId) == Some(round);
    var gi := Seqs.Find(d.games, GameIdIs(round.gameId)).value;
    assert Games.Get(d, round.gameId) == Some(d.games[gi]);
    assert RevoteStep(d, roundId, sessionId).db == Reopen(d, ri, gi);
    ReopenClearsVotes(d, ri, gi);
    Seqs.FindUpdate(d.rounds, RoundIdIs(roundId), ri, round.(status := RoundStatus.Voting, revealedAt := None));
    Seqs.FindUpdate(d.games, GameIdIs(round.gameId), gi, d.games[gi].(status := GameStatus.Voting));
  }

  /** Only the game's admin can revote a revealed round. */
  lemma RevoteNeedsAdmin(d: Db, roundId: Id, sessionId: string)
    requires Get(d, roundId).Some? && Get(d, roundId).value.status == RoundStatus.Revealed
    requires Games.Get(d, Get(d, roundId).value.gameId).Some?
    ensures var s := RevoteStep(d, roundId, sessionId);
            s.result.Ok? <==> Games.Get(d, Get(d, roundId).value.gameId).value.adminSessionId == sessionId
  {
    var ri := Seqs.Find(d.rounds, RoundIdIs(roundId)).value;
    assert Get(d, roundId) == Some(d.rounds[ri]);
    var gi := Seqs.Find(d.games, GameIdIs(d.rounds[ri].gameId)).value;
    assert Games.Get(d, d.rounds[ri].gameId) == Some(d.games[gi]);
  }

  // ---------------------------------------------------------------------------------------------
  // autoReveal

  /** autoReveal leaves a missing or revealed round, and a round some voter has not voted in, alone. */
  lemma AutoRevealNoOp(d: Db, roundId: Id, now: int)
    requires Get(d, roundId).None? || Get(d, roundId).value.status == RoundStatus.Revealed
             || !AllVoted(|VotesOf(d, roundId)|, |Voters(d, Get(d, roundId).value.gameId)|)
    ensures AutoRevealStep(d, roundId, now) == Step(Ok(()), d)
  {
    match Seqs.Find(d.rounds, RoundIdIs(roundId))
    case None =>
    case Some(ri) =>
      assert Get(d, roundId) == Some(d.rounds[ri]);
  }

  /**
   * Once there are at least as many votes as voters (spectators not counted) and at least one
   * voter, autoReveal does exactly what the admin's reveal does.
   */
  lemma AutoRevealIsReveal(d: Db, roundId: Id, now: int)
    requires Get(d, roundId).Some? && Get(d, roundId).value.status == RoundStatus.Voting
    requires Games.Get(d, Get(d, roundId).value.gameId).Some?
    requires AllVoted(|VotesOf(d, roundId)|, |Voters(d, Get(d, roundId).value.gameId)|)
    ensures var admin := Games.Get(d, Get(d, roundId).value.gameId).value.adminSessionId;
            AutoRevealStep(d, roundId, now) == RevealStep(d, roundId, admin, now)
  {
    var ri := Seqs.Find(d.rounds, RoundIdIs(roundId)).value;
    assert Get(d, roundId) == Some(d.rounds[ri]);
    var gi := Seqs.Find(d.games, GameIdIs(d.rounds[ri].gameId)).value;
    assert Games.Get(d, d.rounds[ri].gameId) == Some(d.games[gi]);
  }

  /** A voting round whose game is gone cannot be auto-revealed once the threshold is met: the patch fails. */
  lemma AutoRevealMissingGame(d: Db, roundId: Id, now: int)
    requires Get(d, roundId).Some? && Get(d, roundId).value.status == RoundStatus.Voting
    requires Games.Get(d, Get(d, roundId).value.gameId).None?
    ensures var s := AutoRevealStep(d, roundId, now);
            s.result.Err? <==> AllVoted(|VotesOf(d, roundId)|, |Voters(d, Get(d, roundId).value.gameId)|)
  {
    var ri := Seqs.Find(d.rounds, RoundIdIs(roundId)).value;
    assert Get(d, roundId) == Some(d.rounds[ri]);
  }

  // ---------------------------------------------------------------------------------------------
  // Invariants across the round handlers

  lemma CloseKeepsOneVotingRound(d: Db, ri: nat, gi: nat, now: int)
    requires ri < |d.rounds| && gi < |d.games| && OneVotingRoundPerGame(d.rounds)
    ensures OneVotingRoundPerGame(Close(d, ri, gi, now).rounds)
  {
  }

  /** Reveal never leaves a game with two voting rounds. */
  lemma RevealKeepsOneVotingRound(d: Db, roundId: Id, sessionId: string, now: int)
    requires OneVotingRoundPerGame(d.rounds)
    ensures OneVotingRoundPerGame(RevealStep(d, roundId, sessionId, now).db.rounds)
  {
    match Seqs.Find(d.rounds, RoundIdIs(roundId))
    case None =>
    case Some(ri) =>
      match Seqs.Find(d.games, GameIdIs(d.rounds[ri].gameId))
      case None =>
      case Some(gi) => CloseKeepsOneVotingRound(d, ri, gi, now);
  }

  /** Neither does autoReveal. */
  lemma AutoRevealKeepsOneVotingRound(d: Db, roundId: Id, now: int)
    requires OneVotingRoundPerGame(d.rounds)
    ensures OneVotingRoundPerGame(AutoRevealStep(d, roundId, now).db.rounds)
  {
    match Seqs.Find(d.rounds, RoundIdIs(roundId))
    case None =>
    case Some(ri) =>
      match Seqs.Find(d.games, GameIdIs(d.rounds[ri].gameId))
      case None =>
      case Some(gi) => CloseKeepsOneVotingRound(d, ri, gi, now);
  }

  /**
   * Revote does not check that its round is the game's latest: reopening an older round while a
   * newer one is voting leaves the game with two voting rounds.
   */
  lemma RevoteCanReopenSecondRound(d: Db, roundId: Id, sessionId: string)
    requires RevoteStep(d, roundId, sessionId).result.Ok?
    requires GetCurrent(d, Get(d, roundId).value.gameId).Some?
    ensures !OneVotingRoundPerGame(RevoteStep(d, roundId, sessionId).db.rounds)
  {
    var ri := Seqs.Find(d.rounds, RoundIdIs(roundId)).value;
    assert Get(d, roundId) == Some(d.rounds[ri]);
    var gameId := d.rounds[ri].gameId;
    var ci := Seqs.Find(d.rounds, VotingRoundOf(gameId)).value;
    var after := RevoteStep(d, roundId, sessionId).db.rounds;
    assert after[ri].status == RoundStatus.Voting && after[ri].gameId == gameId;
    assert after[ci] == d.rounds[ci];
    if ci < ri {
      assert !(after[ci].status == RoundStatus.Voting && after[ri].status == RoundStatus.Voting ==> after[ci].gameId != after[ri].gameId);
    } else {
      assert !(after[ri].status == RoundStatus.Voting && after[ci].status == RoundStatus.Voting ==> after[ri].gameId != after[ci].gameId);
    }
  }

  /** After start the game's status mirrors its latest round, the one just opened. */
  lemma StartMirrors(d: Db, gameId: Id, topic: string, sessionId: string, now: int)
    requires WellFormed(d)
    requires StartStep(d, gameId, topic, sessionId, now).result.Ok?
    ensures var s := StartStep(d, gameId, topic, sessionId, now);
            Games.Get(s.db, gameId).Some? && GetLatest(s.db, gameId).Some?
            && Games.Get(s.db, gameId).value.status == Mirror(GetLatest(s.db, gameId).value.status)
  {
    StartUpdatesGame(d, gameId, topic, sessionId, now);
    StartAppendsRound(d, gameId, topic, sessionId, now);
  }

  /** After the admin's reveal the game's status mirrors the revealed round. */
  lemma RevealMirrors(d: Db, roundId: Id, now: int)
    requires Get(d, roundId).Some? && Get(d, roundId).value.status == RoundStatus.Voting
    requires Games.Get(d, Get(d, roundId).value.gameId).Some?
    ensures var round := Get(d, roundId).value;
            var s := RevealStep(d, roundId, Games.Get(d, round.gameId).value.adminSessionId, now);
            Games.Get(s.db, round.gameId).Some? && Get(s.db, roundId).Some?
            && Games.Get(s.db, round.gameId).value.status == Mirror(Get(s.db, roundId).value.status)
  {
    RevealByAdmin(d, roundId, now);
  }

  /** After a revote the game's status mirrors the reopened round. */
  lemma RevoteMirrors(d: Db, roundId: Id, sessionId: string)
    requires RevoteStep(d, roundId, sessionId).result.Ok?
    ensures var round := Get(d, roundId).value;
            var s := RevoteStep(d, roundId, sessionId);
            Games.Get(s.db, round.gameId).Some? && Get(s.db, roundId).Some?
            && Games.Get(s.db, round.gameId).value.status == Mirror(Get(s.db, roundId).value.status)
  {
    RevoteReopens(d, roundId, sessionId);
  }

  /** Patches that keep every row's id keep the store well formed. */
  lemma SameIdsKeepWellFormed(d: Db, games: seq<Game>, rounds: seq<Round>)
    requires WellFormed(d)
    requires |games| == |d.games| && forall i :: 0 <= i < |games| ==> games[i].id == d.games[i].id
    requires |rounds| == |d.rounds| && forall i :: 0 <= i < |rounds| ==> rounds[i].id == d.rounds[i].id
    ensures WellFormed(d.(games := games, rounds := rounds))
  {
  }

  /** Inserting a round under the next id keeps the store well formed. */
  lemma AppendRoundKeepsWellFormed(d: Db, r: Round)
    requires WellFormed(d) && r.id == d.nextId
    ensures WellFormed(d.(rounds := d.rounds + [r], nextId := d.nextId + 1))
  {
  }

  /** Deleting votes keeps the store well formed. */
  lemma FilterVotesKeepsWellFormed(d: Db, p: Vote -> bool)
    requires WellFormed(d)
    ensures WellFormed(d.(votes := Seqs.Filter(d.votes, p)))
  {
    Seqs.FilterIncreasing(d.votes, p, VoteKey);
  }

  lemma CloseKeepsWellFormed(d: Db, ri: nat, gi: nat, now: int)
    requires ri < |d.rounds| && gi < |d.games| && WellFormed(d)
    ensures WellFormed(Close(d, ri, gi, now))
  {
    var e := Close(d, ri, gi, now);
    SameIdsKeepWellFormed(d, e.games, e.rounds);
  }

  lemma StartKeepsWellFormed(d: Db, gameId: Id, topic: string, sessionId: string, now: int)
    requires WellFormed(d)
    ensures WellFormed(StartStep(d, gameId, topic, sessionId, now).db)
  {
    var s := StartStep(d, gameId, topic, sessionId, now);
    if s.result.Ok? {
      var gi := Seqs.Find(d.games, GameIdIs(gameId)).value;
      var e := d.(games := s.db.games, rounds := CloseCurrent(d.rounds, gameId, now));
      SameIdsKeepWellFormed(d, e.games, e.rounds);
      AppendRoundKeepsWellFormed(e, Round(d.nextId, gameId, topic, RoundStatus.Voting, None));
    }
  }

  lemma RevealKeepsWellFormed(d: Db, roundId: Id, sessionId: string, now: int)
    requires WellFormed(d)
    ensures WellFormed(RevealStep(d, roundId, sessionId, now).db)
  {
    match Seqs.Find(d.rounds, RoundIdIs(roundId))
    case None =>
    case Some(ri) =>
      match Seqs.Find(d.games, GameIdIs(d.rounds[ri].gameId))
      case None =>
      case Some(gi) => CloseKeepsWellFormed(d, ri, gi, now);
  }

  lemma RevoteKeepsWellFormed(d: Db, roundId: Id, sessionId: string)
    requires WellFormed(d)
    ensures WellFormed(RevoteStep(d, roundId, sessionId).db)
  {
    match Seqs.Find(d.rounds, RoundIdIs(roundId))
    case None =>
    case Some(ri) =>
      match Seqs.Find(d.games, GameIdIs(d.rounds[ri].gameId))
      case None =>
      case Some(gi) =>
        var e := Reopen(d, ri, gi);
        SameIdsKeepWellFormed(d, e.games, e.rounds);
        FilterVotesKeepsWellFormed(d.(games := e.games, rounds := e.rounds), VoteNotOfRound(roundId));
  }

  lemma AutoRevealKeepsWellFormed(d: Db, roundId: Id, now: int)
    requires WellFormed(d)
    ensures WellFormed(AutoRevealStep(d, roundId, now).db)
  {
    match Seqs.Find(d.rounds, RoundIdIs(roundId))
    case None =>
    case Some(ri) =>
      match Seqs.Find(d.games, GameIdIs(d.rounds[ri].gameId))
      case None =>
      case Some(gi) => CloseKeepsWellFormed(d, ri, gi, now);
  }

  // ---------------------------------------------------------------------------------------------
  // The whole invariant: ids in order, and one join code per game, one row per session, one vote
  // per participant and round

  /** Patches that keep every game's join code keep join codes unique. */
  lemma SameCodesKeepJoinCodesUnique(gs: seq<Game>, hs: seq<Game>)
    requires JoinCodesUnique(gs)
    requires |hs| == |gs| && forall i :: 0 <= i < |hs| ==> hs[i].joinCode == gs[i].joinCode
    ensures JoinCodesUnique(hs)
  {
  }

  /** Deleting votes, whichever, keeps at most one vote per participant and round. */
  lemma {:induction false} FilterKeepsVotesUnique(vs: seq<Vote>, p: Vote -> bool)
    requires VotesUnique(vs)
    ensures VotesUnique(Seqs.Filter(vs, p))
  {
    if vs != [] {
      var rest := vs[1..];
      assert VotesUnique(rest) by {
        forall i, j | 0 <= i < j < |rest|
          ensures !(rest[i].roundId == rest[j].roundId && rest[i].participantId == rest[j].participantId)
        {
          assert rest[i] == vs[i + 1] && rest[j] == vs[j + 1];
        }
      }
      FilterKeepsVotesUnique(rest, p);
      if p(vs[0]) {
        var t := Seqs.Filter(rest, p);
        forall m | 0 <= m < |t| ensures !(vs[0].roundId == t[m].roundId && vs[0].participantId == t[m].participantId) {
          var k :| 0 <= k < |rest| && rest[k] == t[m];
          assert vs[k + 1] == t[m];
        }
        assert Seqs.Filter(vs, p) == [vs[0]] + t;
      }
    }
  }

  lemma CloseKeepsConsistent(d: Db, ri: nat, gi: nat, now: int)
    requires ri < |d.rounds| && gi < |d.games| && Consistent(d)
    ensures Consistent(Close(d, ri, gi, now))
  {
    CloseKeepsWellFormed(d, ri, gi, now);
    SameCodesKeepJoinCodesUnique(d.games, Close(d, ri, gi, now).games);
  }

  /** start keeps the whole invariant. */
  lemma StartKeepsConsistent(d: Db, gameId: Id, topic: string, sessionId: string, now: int)
    requires Consistent(d)
    ensures Consistent(StartStep(d, gameId, topic, sessionId, now).db)
  {
    StartKeepsWellFormed(d, gameId, topic, sessionId, now);
    var s := StartStep(d, gameId, topic, sessionId, now);
    if s.result.Ok? {
      var gi := Seqs.Find(d.games, GameIdIs(gameId)).value;
      SameCodesKeepJoinCodesUnique(d.games, s.db.games);
    }
  }

  /** reveal keeps the whole invariant. */
  lemma RevealKeepsConsistent(d: Db, roundId: Id, sessionId: string, now: int)
    requires Consistent(d)
    ensures Consistent(RevealStep(d, roundId, sessionId, now).db)
  {
    match Seqs.Find(d.rounds, RoundIdIs(roundId))
    case None =>
    case Some(ri) =>
      match Seqs.Find(d.games, GameIdIs(d.rounds[ri].gameId))
      case None =>
      case Some(gi) => CloseKeepsConsistent(d, ri, gi, now);
  }

  /** revote keeps the whole invariant; its deletes keep one vote per participant and round. */
  lemma RevoteKeepsConsistent(d: Db, roundId: Id, sessionId: string)
    requires Consistent(d)
    ensures Consistent(RevoteStep(d, roundId, sessionId).db)
  {
    RevoteKeepsWellFormed(d, roundId, sessionId);
    match Seqs.Find(d.rounds, RoundIdIs(roundId))
    case None =>
    case Some(ri) =>
      match Seqs.Find(d.games, GameIdIs(d.rounds[ri].gameId))
      case None =>
      case Some(gi) =>
        var e := Reopen(d, ri, gi);
        SameCodesKeepJoinCodesUnique(d.games, e.games);
        FilterKeepsVotesUnique(d.votes, VoteNotOfRound(d.rounds[ri].id));
  }

  /** autoReveal keeps the whole invariant. */
  lemma AutoRevealKeepsConsistent(d: Db, roundId: Id, now: int)
    requires Consistent(d)
    ensures Consistent(AutoRevealStep(d, roundId, now).db)
  {
    match Seqs.Find(d.rounds, RoundIdIs(roundId))
    case None =>
    case Some(ri) =>
      match Seqs.Find(d.games, GameIdIs(d.rounds[ri].gameId))
      case None =>
      case Some(gi) => CloseKeepsConsistent(d, ri, gi, now);
  }

  // ---------------------------------------------------------------------------------------------
  // Handlers

  /** The two patches that reveal the round at `ri` and its game at `gi`. */
  method ClosePatches(db: Database.Store, ri: nat, gi: nat, now: int)
    requires db.Valid() && ri < |db.rounds| && gi < |db.games|
    modifies db
    ensures db.Valid()
    ensures db.Snapshot() == Close(old(db.Snapshot()), ri, gi, now)
  {
    db.PatchRound(ri, db.rounds[ri].(status := RoundStatus.Revealed, revealedAt := Some(now)));
    db.PatchGame(gi, db.games[gi].(status := GameStatus.Revealed));
  }

  /** start: close the current round, insert the new one, then point the game at it. */
  method Start(db: Database.Store, gameId: Id, topic: string, sessionId: string, now: int) returns (r: Result<Id, Error>)
    requires db.Valid()
    modifies db
    ensures db.Valid()
    ensures var s := StartStep(old(db.Snapshot()), gameId, topic, sessionId, now);
            r == s.result && db.Snapshot() == s.db
  {
    ghost var d := db.Snapshot();
    var found := Seqs.Find(db.games, GameIdIs(gameId));
    if found.None? {
      return Err(GameNotFound);
    }
    var gi := found.value;
    var game := db.games[gi];
    if game.adminSessionId != sessionId {
      return Err(NotAdmin);
    }
    var current := Seqs.Find(db.rounds, VotingRoundOf(gameId));
    if current.Some? {
      var ri := current.value;
      db.PatchRound(ri, db.rounds[ri].(status := RoundStatus.Revealed, revealedAt := Some(now)));
    }
    assert db.rounds == CloseCurrent(d.rounds, gameId, now);
    var roundId := db.InsertRound(Round(0, gameId, topic, RoundStatus.Voting, None));
    db.PatchGame(gi, game.(status := GameStatus.Voting, currentTopic := Some(topic)));
    r := Ok(roundId);
  }

  /** reveal: a no-op on a revealed round, otherwise the admin's two patches. */
  method Reveal(db: Database.Store, roundId: Id, sessionId: string, now: int) returns (r: Result<(), Error>)
    requires db.Valid()
    modifies db
    ensures db.Valid()
    ensures var s := RevealStep(old(db.Snapshot()), roundId, sessionId, now);
            r == s.result && db.Snapshot() == s.db
  {
    var found := Seqs.Find(db.rounds, RoundIdIs(roundId));
    if found.None? {
      return Err(RoundNotFound);
    }
    var ri := found.value;
    var round := db.rounds[ri];
    if round.status == RoundStatus.Revealed {
      return Ok(());
    }
    var game := Seqs.Find(db.games, GameIdIs(round.gameId));
    if game.None? {
      return Err(GameNotFound);
    }
    var gi := game.value;
    if db.games[gi].adminSessionId != sessionId {
      return Err(NotAdmin);
    }
    ClosePatches(db, ri, gi, now);
    r := Ok(());
  }

  /** Keeps the votes whose id is not in `ids`. */
  function IdNotIn(ids: set<Id>): Vote -> bool { (v: Vote) => v.id !in ids }

  /** The ids of some votes. */
  function IdsOf(vs: seq<Vote>): set<Id> { set v | v in vs :: v.id }

  /** Deleting, by id, the votes collected from a round deletes exactly that round's votes (ids are unique). */
  lemma DeleteCollectedVotes(votes: seq<Vote>, roundId: Id)
    requires forall i, j :: 0 <= i < j < |votes| ==> votes[i].id < votes[j].id
    ensures Seqs.Filter(votes, IdNotIn(IdsOf(Seqs.Filter(votes, VoteOfRound(roundId)))))
            == Seqs.Filter(votes, VoteNotOfRound(roundId))
  {
    var collected := Seqs.Filter(votes, VoteOfRound(roundId));
    forall x | x in votes ensures IdNotIn(IdsOf(collected))(x) == VoteNotOfRound(roundId)(x) {
      if x.id in IdsOf(collected) {
        var w :| w in collected && w.id == x.id;
        var i :| 0 <= i < |votes| && votes[i] == x;
        var j :| 0 <= j < |votes| && votes[j] == w;
        assert i == j;
      }
    }
    Seqs.FilterCongruent(votes, IdNotIn(IdsOf(collected)), VoteNotOfRound(roundId));
  }

  /** Deleting one more vote by id extends the set of deleted ids by that id. */
  lemma DeleteOneMore(votes: seq<Vote>, doomed: seq<Vote>, k: nat)
    requires k < |doomed|
    ensures Seqs.Filter(Seqs.Filter(votes, IdNotIn(IdsOf(doomed[..k]))), VoteIdIsNot(doomed[k].id))
            == Seqs.Filter(votes, IdNotIn(IdsOf(doomed[..k + 1])))
  {
    assert doomed[..k + 1] == doomed[..k] + [doomed[k]];
    assert IdsOf(doomed[..k + 1]) == IdsOf(doomed[..k]) + {doomed[k].id};
    Seqs.FilterFilter(votes, IdNotIn(IdsOf(doomed[..k])), VoteIdIsNot(doomed[k].id), IdNotIn(IdsOf(doomed[..k + 1])));
  }

  /** Before the loop nothing is deleted. */
  lemma DeleteNone(votes: seq<Vote>, doomed: seq<Vote>)
    ensures Seqs.Filter(votes, IdNotIn(IdsOf(doomed[..0]))) == votes
  {
    assert IdsOf(doomed[..0]) == {};
    Seqs.FilterAll(votes, IdNotIn(IdsOf(doomed[..0])));
  }

  /** The deletion loop of revote: deletes, one by one, the votes with the ids of `doomed`. */
  method DeleteVotes(db: Database.Store, doomed: seq<Vote>)
    requires db.Valid()
    modifies db
    ensures db.Valid()
    ensures db.votes == Seqs.Filter(old(db.votes), IdNotIn(IdsOf(doomed)))
    ensures db.games == old(db.games) && db.participants == old(db.participants)
    ensures db.rounds == old(db.rounds) && db.nextId == old(db.nextId)
  {
    ghost var votes := db.votes;
    ghost var rest := db.Snapshot().(votes := []);
    DeleteNone(votes, doomed);
    var k := 0;
    while k < |doomed|
      invariant 0 <= k <= |doomed|
      invariant db.Valid()
      invariant db.votes == Seqs.Filter(votes, IdNotIn(IdsOf(doomed[..k])))
      invariant db.Snapshot().(votes := []) == rest
    {
      db.DeleteVote(doomed[k].id);
      DeleteOneMore(votes, doomed, k);
      k := k + 1;
    }
    assert doomed[..k] == doomed;
  }

  /** revote: collect the round's votes and delete them one by one, then reopen the round and its game. */
  method Revote(db: Database.Store, roundId: Id, sessionId: string) returns (r: Result<(), Error>)
    requires db.Valid()
    modifies db
    ensures db.Valid()
    ensures var s := RevoteStep(old(db.Snapshot()), roundId, sessionId);
            r == s.result && db.Snapshot() == s.db
  {
    var found := Seqs.Find(db.rounds, RoundIdIs(roundId));
    if found.None? {
      return Err(RoundNotFound);
    }
    var ri := found.value;
    var round := db.rounds[ri];
    if round.status != RoundStatus.Revealed {
      return Err(RoundNotRevealed);
    }
    var game := Seqs.Find(db.games, GameIdIs(round.gameId));
    if game.None? {
      return Err(GameNotFound);
    }
    var gi := game.value;
    if db.games[gi].adminSessionId != sessionId {
      return Err(NotAdmin);
    }
    var votes := Seqs.Filter(db.votes, VoteOfRound(roundId));
    DeleteCollectedVotes(db.votes, roundId);
    DeleteVotes(db, votes);
    db.PatchRound(ri, round.(status := RoundStatus.Voting, revealedAt := None));
    db.PatchGame(gi, db.games[gi].(status := GameStatus.Voting));
    r := Ok(());
  }

  /** autoReveal: count the voters and the votes, and reveal once every voter has voted. */
  method AutoReveal(db: Database.Store, roundId: Id, now: int) returns (r: Result<(), Error>)
    requires db.Valid()
    modifies db
    ensures db.Valid()
    ensures var s := AutoRevealStep(old(db.Snapshot()), roundId, now);
            r == s.result && db.Snapshot() == s.db
  {
    var found := Seqs.Find(db.rounds, RoundIdIs(roundId));
    if found.None? {
      return Ok(());
    }
    var ri := found.value;
    var round := db.rounds[ri];
    if round.status == RoundStatus.Revealed {
      return Ok(());
    }
    var voters := Voters(db.Snapshot(), round.gameId);
    var votes := VotesOf(db.Snapshot(), roundId);
    if !AllVoted(|votes|, |voters|) {
      return Ok(());
    }
    var game := Seqs.Find(db.games, GameIdIs(round.gameId));
    if game.None? {
      return Err(GameNotFound);
    }
    ClosePatches(db, ri, game.value, now);
    r := Ok(());
  }
}
