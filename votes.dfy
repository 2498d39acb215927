/**
 * Votes: a participant casts, changes or withdraws a vote while its round is voting. The
 * first vote that completes the round reveals it. Values stay hidden from everyone but their
 * owner until the round is revealed, and the statistics exist only afterwards.
 */
module Votes {
  import opened Wrappers
  import opened Schema
  import Seqs
  import Database
  import Games
  import Rounds
  import Statistics
  import VotingSystems

  /** The value getForRound shows in place of a vote that is still hidden. */
  const Hidden: int := -1

  /** getMyVote: the caller's own vote in the round (index by_roundId_participantId), unmasked. */
  function GetMyVote(d: Db, roundId: Id, participantId: Id): (r: Option<Vote>)
    ensures r.Some? ==> r.value in d.votes && r.value.roundId == roundId && r.value.participantId == participantId
    ensures r.None? <==> forall i :: 0 <= i < |d.votes| ==> !VoteFor(roundId, participantId)(d.votes[i])
  {
    Seqs.First(d.votes, VoteFor(roundId, participantId))
  }

  /** A vote with its value hidden: the sentinel is no card of any deck, so it cannot pass for a vote. */
  function Masked(v: Vote): (m: Vote)
    ensures m.id == v.id && m.roundId == v.roundId && m.participantId == v.participantId
    ensures forall k: VotingSystem :: m.value !in VotingSystems.CardValues(k)
  {
    v.(value := Hidden)
  }

  /** getForRound: the round's votes, each value hidden until the round is revealed; [] for a missing round. */
  function GetForRound(d: Db, roundId: Id): (r: seq<Vote>)
    ensures Rounds.Get(d, roundId).None? ==> r == []
    ensures Rounds.Get(d, roundId).Some? ==>
              var vs := Rounds.VotesOf(d, roundId);
              && |r| == |vs|
              && (forall i :: 0 <= i < |r| ==>
                    r[i].id == vs[i].id && r[i].roundId == roundId && r[i].participantId == vs[i].participantId)
              && (Rounds.Get(d, roundId).value.status == RoundStatus.Revealed ==> r == vs)
              && (Rounds.Get(d, roundId).value.status == RoundStatus.Voting ==>
                    forall i :: 0 <= i < |r| ==> r[i].value == Hidden)
  {
    match Rounds.Get(d, roundId)
    case None => []
    case Some(round) =>
      var vs := Rounds.VotesOf(d, roundId);
      if round.status != RoundStatus.Revealed then seq(|vs|, i requires 0 <= i < |vs| => Masked(vs[i]))
      else vs
  }

  /** The effect of cast: an upsert on (roundId, participantId); a new vote may complete the round. */
  function CastStep(d: Db, roundId: Id, participantId: Id, value: int, now: int): (s: Step<Id>)
    ensures s.result == Err(RoundNotFound) <==> Rounds.Get(d, roundId).None?
    ensures s.result == Err(RoundAlreadyRevealed) <==>
              Rounds.Get(d, roundId).Some? && Rounds.Get(d, roundId).value.status == RoundStatus.Revealed
    ensures s.result.Err? ==> s.db == d
  {
    match Seqs.Find(d.rounds, RoundIdIs(roundId))
    case None => Step(Err(RoundNotFound), d)
    case Some(ri) =>
      var round := d.rounds[ri];
      assert Rounds.Get(d, roundId) == Some(round);
      if round.status == RoundStatus.Revealed then Step(Err(RoundAlreadyRevealed), d)
      else
        assert round.status == RoundStatus.Voting;
        match Seqs.Find(d.votes, VoteFor(roundId, participantId))
        case Some(vi) => Step(Ok(d.votes[vi].id), d.(votes := d.votes[vi := d.votes[vi].(value := value)]))
        case None =>
          var id := d.nextId;
          var e := d.(votes := d.votes + [Vote(id, roundId, participantId, value)], nextId := id + 1);
          match Seqs.Find(e.games, GameIdIs(round.gameId))
          case None => Step(Ok(id), e)
          case Some(gi) =>
            if Rounds.AllVoted(|Rounds.VotesOf(e, roundId)|, |Rounds.Voters(e, round.gameId)|)
            then Step(Ok(id), Rounds.Close(e, ri, gi, now))
            else Step(Ok(id), e)
  }

  /** The effect of remove: deletes the caller's vote if there is one. */
  function RemoveStep(d: Db, roundId: Id, participantId: Id): (s: Step<()>)
    ensures s.result == Err(RoundNotFound) <==> Rounds.Get(d, roundId).None?
    ensures s.result == Err(RoundAlreadyRevealed) <==>
              Rounds.Get(d, roundId).Some? && Rounds.Get(d, roundId).value.status == RoundStatus.Revealed
    ensures s.result.Err? ==> s.db == d
  {
    match Seqs.Find(d.rounds, RoundIdIs(roundId))
    case None => Step(Err(RoundNotFound), d)
    case Some(ri) =>
      var round := d.rounds[ri];
      assert Rounds.Get(d, roundId) == Some(round);
      if round.status == RoundStatus.Revealed then Step(Err(RoundAlreadyRevealed), d)
      else
        assert round.status == RoundStatus.Voting;
        match Seqs.Find(d.votes, VoteFor(roundId, participantId))
        case None => Step(Ok(()), d)
        case Some(vi) => Step(Ok(()), d.(votes := Seqs.Filter(d.votes, VoteIdIsNot(d.votes[vi].id))))
  }

  // ---------------------------------------------------------------------------------------------
  // Masking

  /** Two vote tables that agree on everything but the values. */
  predicate SameButValues(a: seq<Vote>, b: seq<Vote>) {
    |a| == |b| && forall i :: 0 <= i < |a| ==> Masked(a[i]) == Masked(b[i])
  }

  lemma {:induction false} FilterSameButValues(a: seq<Vote>, b: seq<Vote>, roundId: Id)
    requires SameButValues(a, b)
    ensures SameButValues(Seqs.Filter(a, VoteOfRound(roundId)), Seqs.Filter(b, VoteOfRound(roundId)))
  {
    if a != [] {
      assert Masked(a[0]) == Masked(b[0]);
      assert SameButValues(a[1..], b[1..]) by {
        forall i | 0 <= i < |a[1..]| ensures Masked(a[1..][i]) == Masked(b[1..][i]) {
          assert Masked(a[i + 1]) == Masked(b[i + 1]);
        }
      }
      FilterSameButValues(a[1..], b[1..], roundId);
    }
  }

  /**
   * Until a round is revealed, getForRound tells nothing about the values: stores that differ
   * only in vote values give the same answer.
   */
  lemma MaskHidesValues(d1: Db, d2: Db, roundId: Id)
    requires d1.rounds == d2.rounds && SameButValues(d1.votes, d2.votes)
    requires Rounds.Get(d1, roundId).None? || Rounds.Get(d1, roundId).value.status == RoundStatus.Voting
    ensures GetForRound(d1, roundId) == GetForRound(d2, roundId)
  {
    assert Rounds.Get(d1, roundId) == Rounds.Get(d2, roundId);
    FilterSameButValues(d1.votes, d2.votes, roundId);
    if Rounds.Get(d1, roundId).Some? {
      var r1 := GetForRound(d1, roundId);
      var r2 := GetForRound(d2, roundId);
      var v1 := Rounds.VotesOf(d1, roundId);
      var v2 := Rounds.VotesOf(d2, roundId);
      forall i | 0 <= i < |r1| ensures r1[i] == r2[i] {
        assert r1[i] == Masked(v1[i]) && r2[i] == Masked(v2[i]);
      }
    }
  }

  /**
   * The masking does not extend to listHistory, which averages every round of the game: while a
   * round with a single vote is still voting, getForRound hides the value and its history entry
   * shows ten times that value.
   */
  lemma HistoryShowsHiddenVote(d: Db, gameId: Id, i: nat)
    requires WellFormed(d)
    requires i < |Rounds.ListHistory(d, gameId)|
    requires Rounds.ListHistory(d, gameId)[i].round.status == RoundStatus.Voting
    requires |Rounds.VotesOf(d, Rounds.ListHistory(d, gameId)[i].round.id)| == 1
    ensures var e := Rounds.ListHistory(d, gameId)[i];
            var v := Rounds.VotesOf(d, e.round.id)[0];
            && GetForRound(d, e.round.id) == [Masked(v)]
            && e.averageTenths == 10 * v.value
  {
    Rounds.HistoryAt(d, gameId, i);
    Rounds.HistoryRoundAt(d, gameId, i);
    var e := Rounds.ListHistory(d, gameId)[i];
    var vs := Rounds.VotesOf(d, e.round.id);
    Rounds.GetStored(d, e.round);
    var values := ValuesOf(vs);
    assert values == [vs[0].value];
    assert Statistics.Sum(values) == vs[0].value by {
      assert values[1..] == [];
    }
    var avg := Statistics.AverageTenths(values);
    assert 2 * avg - 1 <= 20 * vs[0].value < 2 * avg + 1;
  }

  /** Once the round is revealed, getForRound shows the stored votes themselves. */
  lemma RevealedShowsValues(d: Db, roundId: Id)
    requires Rounds.Get(d, roundId).Some? && Rounds.Get(d, roundId).value.status == RoundStatus.Revealed
    ensures GetForRound(d, roundId) == Rounds.VotesOf(d, roundId)
    ensures forall v :: v in d.votes && v.roundId == roundId ==> v in GetForRound(d, roundId)
  {
    forall v | v in d.votes && v.roundId == roundId ensures v in GetForRound(d, roundId) {
      var i :| 0 <= i < |d.votes| && d.votes[i] == v;
    }
  }

  // ---------------------------------------------------------------------------------------------
  // cast

  /** Changing an existing vote overwrites its value only, returns its id, and leaves round and game alone. */
  lemma CastUpdate(d: Db, roundId: Id, participantId: Id, value: int, now: int)
    requires Rounds.Get(d, roundId).Some? && Rounds.Get(d, roundId).value.status == RoundStatus.Voting
    requires GetMyVote(d, roundId, participantId).Some?
    ensures var s := CastStep(d, roundId, participantId, value, now);
            var old_ := GetMyVote(d, roundId, participantId).value;
            && s.result == Ok(old_.id)
            && GetMyVote(s.db, roundId, participantId) == Some(old_.(value := value))
            && |s.db.votes| == |d.votes| && SameButValues(s.db.votes, d.votes)
            && (exists i :: 0 <= i < |d.votes| && d.votes[i] == old_ && s.db.votes == d.votes[i := old_.(value := value)])
            && s.db.rounds == d.rounds && s.db.games == d.games
            && s.db.participants == d.participants && s.db.nextId == d.nextId
  {
    var ri := Seqs.Find(d.rounds, RoundIdIs(roundId)).value;
    assert Rounds.Get(d, roundId) == Some(d.rounds[ri]);
    var vi := Seqs.Find(d.votes, VoteFor(roundId, participantId)).value;
    assert GetMyVote(d, roundId, participantId) == Some(d.votes[vi]);
    Seqs.FindUpdate(d.votes, VoteFor(roundId, participantId), vi, d.votes[vi].(value := value));
    assert CastStep(d, roundId, participantId, value, now).db.votes == d.votes[vi := d.votes[vi].(value := value)];
  }

  /**
   * A first vote is inserted under the next id. It then reveals the round and its game exactly
   * when the game exists and, counting the new vote, every voter has voted.
   */
  lemma CastInsert(d: Db, roundId: Id, participantId: Id, value: int, now: int)
    requires Rounds.Get(d, roundId).Some? && Rounds.Get(d, roundId).value.status == RoundStatus.Voting
    requires GetMyVote(d, roundId, participantId).None?
    ensures var s := CastStep(d, roundId, participantId, value, now);
            var round := Rounds.Get(d, roundId).value;
            var gameId := round.gameId;
            var completes := Games.Get(d, gameId).Some? &&
                             Rounds.AllVoted(|Rounds.VotesOf(d, roundId)| + 1, |Rounds.Voters(d, gameId)|);
            && s.result == Ok(d.nextId)
            && s.db.votes == d.votes + [Vote(d.nextId, roundId, participantId, value)]
            && s.db.participants == d.participants && s.db.nextId == d.nextId + 1
            && |s.db.rounds| == |d.rounds| && |s.db.games| == |d.games|
            && Rounds.Get(s.db, roundId)
               == Some(if completes then round.(status := RoundStatus.Revealed, revealedAt := Some(now)) else round)
            && (!completes ==> s.db.rounds == d.rounds && s.db.games == d.games)
            && (forall k :: 0 <= k < |d.rounds| && d.rounds[k].id != roundId ==> s.db.rounds[k] == d.rounds[k])
            && (forall k :: 0 <= k < |d.games| && d.games[k].id != gameId ==> s.db.games[k] == d.games[k])
  {
    var ri := Seqs.Find(d.rounds, RoundIdIs(roundId)).value;
    var round := d.rounds[ri];
    assert Rounds.Get(d, roundId) == Some(round);
    var v := Vote(d.nextId, roundId, participantId, value);
    var e := d.(votes := d.votes + [v], nextId := d.nextId + 1);
    Seqs.FilterAppend(d.votes, [v], VoteOfRound(roundId));
    assert Rounds.Voters(e, round.gameId) == Rounds.Voters(d, round.gameId);
    var s := CastStep(d, roundId, participantId, value, now);
    match Seqs.Find(d.games, GameIdIs(round.gameId))
    case None =>
      assert s.db == e;
      Seqs.FindAt(s.db.rounds, RoundIdIs(roundId), ri);
    case Some(gi) =>
      assert Games.Get(d, round.gameId) == Some(d.games[gi]);
      if Rounds.AllVoted(|Rounds.VotesOf(e, roundId)|, |Rounds.Voters(e, round.gameId)|) {
        Seqs.FindUpdate(e.rounds, RoundIdIs(roundId), ri,
                        round.(status := RoundStatus.Revealed, revealedAt := Some(now)));
      } else {
        Seqs.FindAt(s.db.rounds, RoundIdIs(roundId), ri);
      }
    CastInsertFrame(d, roundId, participantId, value, now, ri);
  }

  /** A first cast changes no round but its own and no game but its round's, and neither of those unless it completes the round. */
  lemma CastInsertFrame(d: Db, roundId: Id, participantId: Id, value: int, now: int, ri: nat)
    requires Seqs.Find(d.rounds, RoundIdIs(roundId)) == Some(ri)
    requires d.rounds[ri].status == RoundStatus.Voting
    requires Seqs.Find(d.votes, VoteFor(roundId, participantId)).None?
    ensures var s := CastStep(d, roundId, participantId, value, now);
            var gameId := d.rounds[ri].gameId;
            var e := d.(votes := d.votes + [Vote(d.nextId, roundId, participantId, value)], nextId := d.nextId + 1);
            var completes := Seqs.Find(d.games, GameIdIs(gameId)).Some? &&
                             Rounds.AllVoted(|Rounds.VotesOf(e, roundId)|, |Rounds.Voters(e, gameId)|);
            && (!completes ==> s.db.rounds == d.rounds && s.db.games == d.games)
            && (forall k :: 0 <= k < |d.rounds| && d.rounds[k].id != roundId ==> s.db.rounds[k] == d.rounds[k])
            && (forall k :: 0 <= k < |d.games| && d.games[k].id != gameId ==> s.db.games[k] == d.games[k])
  {
  }

  /** When the game exists, the reveal that follows an inserted vote is autoReveal run on the store with that vote. */
  lemma CastInsertIsAutoReveal(d: Db, roundId: Id, participantId: Id, value: int, now: int)
    requires Rounds.Get(d, roundId).Some? && Rounds.Get(d, roundId).value.status == RoundStatus.Voting
    requires GetMyVote(d, roundId, participantId).None?
    requires Games.Get(d, Rounds.Get(d, roundId).value.gameId).Some?
    ensures var e := d.(votes := d.votes + [Vote(d.nextId, roundId, participantId, value)], nextId := d.nextId + 1);
            CastStep(d, roundId, participantId, value, now).db == Rounds.AutoRevealStep(e, roundId, now).db
  {
    var ri := Seqs.Find(d.rounds, RoundIdIs(roundId)).value;
    assert Rounds.Get(d, roundId) == Some(d.rounds[ri]);
  }

  /** After a successful cast, getMyVote returns the vote just written, under the id cast returned. */
  lemma CastThenGetMyVote(d: Db, roundId: Id, participantId: Id, value: int, now: int)
    requires CastStep(d, roundId, participantId, value, now).result.Ok?
    ensures var s := CastStep(d, roundId, participantId, value, now);
            GetMyVote(s.db, roundId, participantId) == Some(Vote(s.result.value, roundId, participantId, value))
  {
    var ri := Seqs.Find(d.rounds, RoundIdIs(roundId)).value;
    assert Rounds.Get(d, roundId) == Some(d.rounds[ri]);
    var s := CastStep(d, roundId, participantId, value, now);
    match Seqs.Find(d.votes, VoteFor(roundId, participantId))
    case Some(vi) =>
      CastUpdate(d, roundId, participantId, value, now);
      assert GetMyVote(d, roundId, participantId) == Some(d.votes[vi]);
    case None =>
      CastInsert(d, roundId, participantId, value, now);
      Seqs.FindAt(s.db.votes, VoteFor(roundId, participantId), |d.votes|);
  }

  lemma PatchKeepsVotesUnique(vs: seq<Vote>, i: nat, v: Vote)
    requires VotesUnique(vs) && i < |vs| && v.roundId == vs[i].roundId && v.participantId == vs[i].participantId
    ensures VotesUnique(vs[i := v])
  {
  }

  lemma AppendKeepsVotesUnique(vs: seq<Vote>, v: Vote)
    requires VotesUnique(vs)
    requires forall i :: 0 <= i < |vs| ==> !VoteFor(v.roundId, v.participantId)(vs[i])
    ensures VotesUnique(vs + [v])
  {
  }

  /** cast keeps at most one vote per (round, participant). */
  lemma CastKeepsVotesUnique(d: Db, roundId: Id, participantId: Id, value: int, now: int)
    requires VotesUnique(d.votes)
    ensures VotesUnique(CastStep(d, roundId, participantId, value, now).db.votes)
  {
    match Seqs.Find(d.rounds, RoundIdIs(roundId))
    case None =>
    case Some(ri) =>
      if d.rounds[ri].status == RoundStatus.Voting {
        match Seqs.Find(d.votes, VoteFor(roundId, participantId))
        case Some(vi) => PatchKeepsVotesUnique(d.votes, vi, d.votes[vi].(value := value));
        case None => AppendKeepsVotesUnique(d.votes, Vote(d.nextId, roundId, participantId, value));
      }
  }
  /** cast keeps the whole invariant. */
  lemma CastKeepsConsistent(d: Db, roundId: Id, participantId: Id, value: int, now: int)
    requires Consistent(d)
    ensures Consistent(CastStep(d, roundId, participantId, value, now).db)
  {
    CastKeepsWellFormed(d, roundId, participantId, value, now);
    CastKeepsVotesUnique(d, roundId, participantId, value, now);
    Rounds.SameCodesKeepJoinCodesUnique(d.games, CastStep(d, roundId, participantId, value, now).db.games);
  }

  /** remove keeps the whole invariant; its delete keeps one vote per participant and round. */
  lemma RemoveKeepsConsistent(d: Db, roundId: Id, participantId: Id)
    requires Consistent(d)
    ensures Consistent(RemoveStep(d, roundId, participantId).db)
  {
    RemoveKeepsWellFormed(d, roundId, participantId);
    match Seqs.Find(d.rounds, RoundIdIs(roundId))
    case None =>
    case Some(ri) =>
      match Seqs.Find(d.votes, VoteFor(roundId, participantId))
      case None =>
      case Some(vi) => Rounds.FilterKeepsVotesUnique(d.votes, VoteIdIsNot(d.votes[vi].id));
  }


  /** With at most one vote per pair before, a successful cast leaves exactly one vote for its pair. */
  lemma CastLeavesOneVote(d: Db, roundId: Id, participantId: Id, value: int, now: int)
    requires VotesUnique(d.votes)
    requires CastStep(d, roundId, participantId, value, now).result.Ok?
    ensures |Seqs.Filter(CastStep(d, roundId, participantId, value, now).db.votes, VoteFor(roundId, participantId))| == 1
  {
    var s := CastStep(d, roundId, participantId, value, now);
    CastKeepsVotesUnique(d, roundId, participantId, value, now);
    CastThenGetMyVote(d, roundId, participantId, value, now);
    AtMostOneFor(s.db.votes, roundId, participantId);
  }

  /** Under VotesUnique a pair matches at most one vote. */
  lemma {:induction false} AtMostOneFor(vs: seq<Vote>, roundId: Id, participantId: Id)
    requires VotesUnique(vs)
    ensures |Seqs.Filter(vs, VoteFor(roundId, participantId))| <= 1
    ensures (exists i :: 0 <= i < |vs| && VoteFor(roundId, participantId)(vs[i])) ==>
              |Seqs.Filter(vs, VoteFor(roundId, participantId))| == 1
  {
    if vs != [] {
      assert VotesUnique(vs[1..]) by {
        forall i, j | 0 <= i < j < |vs[1..]|
          ensures !(vs[1..][i].roundId == vs[1..][j].roundId && vs[1..][i].participantId == vs[1..][j].participantId)
        {
          assert vs[1..][i] == vs[i + 1] && vs[1..][j] == vs[j + 1];
        }
      }
      AtMostOneFor(vs[1..], roundId, participantId);
      if VoteFor(roundId, participantId)(vs[0]) {
        forall k | 0 <= k < |vs[1..]| ensures !VoteFor(roundId, participantId)(vs[1..][k]) {
          assert vs[1..][k] == vs[k + 1];
        }
        Seqs.FilterNone(vs[1..], VoteFor(roundId, participantId));
      } else if exists i :: 0 <= i < |vs| && VoteFor(roundId, participantId)(vs[i]) {
        var i :| 0 <= i < |vs| && VoteFor(roundId, participantId)(vs[i]);
        assert vs[1..][i - 1] == vs[i];
      }
    }
  }

  // ---------------------------------------------------------------------------------------------
  // remove

  /** Votes whose ids all differ from `id` survive deleting `id`. */
  lemma OtherIdsKept(vs: seq<Vote>, id: Id)
    requires forall k :: 0 <= k < |vs| ==> vs[k].id != id
    ensures Seqs.Filter(vs, VoteIdIsNot(id)) == vs
  {
    forall x | x in vs ensures VoteIdIsNot(id)(x) {
      var k :| 0 <= k < |vs| && vs[k] == x;
    }
    Seqs.FilterAll(vs, VoteIdIsNot(id));
  }

  /** Around a vote whose id no other vote has, deleting that id keeps everything. */
  lemma NeighboursKept(vs: seq<Vote>, i: nat)
    requires i < |vs| && forall k :: 0 <= k < |vs| && k != i ==> vs[k].id != vs[i].id
    ensures Seqs.Filter(vs[..i], VoteIdIsNot(vs[i].id)) == vs[..i]
    ensures Seqs.Filter(vs[i + 1..], VoteIdIsNot(vs[i].id)) == vs[i + 1..]
  {
    var id := vs[i].id;
    var before, after := vs[..i], vs[i + 1..];
    forall k | 0 <= k < |before| ensures before[k].id != id {
      assert before[k] == vs[k];
    }
    forall k | 0 <= k < |after| ensures after[k].id != id {
      assert after[k] == vs[i + 1 + k];
    }
    OtherIdsKept(before, id);
    OtherIdsKept(after, id);
  }

  /** Deleting by id removes a vote from among votes with distinct ids, and nothing else. */
  lemma DeleteById(vs: seq<Vote>, i: nat)
    requires i < |vs| && forall k :: 0 <= k < |vs| && k != i ==> vs[k].id != vs[i].id
    ensures Seqs.Filter(vs, VoteIdIsNot(vs[i].id)) == vs[..i] + vs[i + 1..]
  {
    Seqs.FilterUpdate(vs, i, vs[i], VoteIdIsNot(vs[i].id));
    NeighboursKept(vs, i);
    assert Seqs.Filter([vs[i]], VoteIdIsNot(vs[i].id)) == [] by {
      assert [vs[i]][1..] == [];
    }
    assert vs[..i] + [] == vs[..i];
  }

  /**
   * On a voting round remove succeeds. It deletes the caller's vote if there is one, and no
   * other vote; without one it changes nothing.
   */
  lemma RemoveDeletes(d: Db, roundId: Id, participantId: Id)
    requires WellFormed(d)
    requires Rounds.Get(d, roundId).Some? && Rounds.Get(d, roundId).value.status == RoundStatus.Voting
    ensures var s := RemoveStep(d, roundId, participantId);
            && s.result == Ok(())
            && (GetMyVote(d, roundId, participantId).None? ==> s.db == d)
            && (GetMyVote(d, roundId, participantId).Some? ==>
                  && s.db == d.(votes := s.db.votes)
                  && exists i :: 0 <= i < |d.votes| && d.votes[i] == GetMyVote(d, roundId, participantId).value
                                 && s.db.votes == d.votes[..i] + d.votes[i + 1..])
  {
    var ri := Seqs.Find(d.rounds, RoundIdIs(roundId)).value;
    assert Rounds.Get(d, roundId) == Some(d.rounds[ri]);
    match Seqs.Find(d.votes, VoteFor(roundId, participantId))
    case None =>
    case Some(vi) =>
      assert GetMyVote(d, roundId, participantId) == Some(d.votes[vi]);
      IncreasingIdsDistinct(d.votes, vi);
      DeleteById(d.votes, vi);
      var s := RemoveStep(d, roundId, participantId);
      assert s.db.votes == d.votes[..vi] + d.votes[vi + 1..];
  }

  /** Along a table whose ids strictly increase, no other row has the id of row `i`. */
  lemma IncreasingIdsDistinct(vs: seq<Vote>, i: nat)
    requires i < |vs|
    requires forall a, b :: 0 <= a < b < |vs| ==> vs[a].id < vs[b].id
    ensures forall k :: 0 <= k < |vs| && k != i ==> vs[k].id != vs[i].id
  {
  }

  /** After remove, with at most one vote per pair, the caller has no vote in the round. */
  lemma RemoveThenGetMyVote(d: Db, roundId: Id, participantId: Id)
    requires VotesUnique(d.votes)
    requires RemoveStep(d, roundId, participantId).result.Ok?
    ensures GetMyVote(RemoveStep(d, roundId, participantId).db, roundId, participantId).None?
  {
    var ri := Seqs.Find(d.rounds, RoundIdIs(roundId)).value;
    assert Rounds.Get(d, roundId) == Some(d.rounds[ri]);
    match Seqs.Find(d.votes, VoteFor(roundId, participantId))
    case None =>
    case Some(vi) =>
      var after := RemoveStep(d, roundId, participantId).db.votes;
      forall k | 0 <= k < |after| ensures !VoteFor(roundId, participantId)(after[k]) {
        var j :| 0 <= j < |d.votes| && d.votes[j] == after[k];
      }
  }

  // ---------------------------------------------------------------------------------------------
  // Well-formedness

  lemma PatchVoteKeepsWellFormed(d: Db, i: nat, v: Vote)
    requires WellFormed(d) && i < |d.votes| && v.id == d.votes[i].id
    ensures WellFormed(d.(votes := d.votes[i := v]))
  {
  }

  lemma AppendVoteKeepsWellFormed(d: Db, v: Vote)
    requires WellFormed(d) && v.id == d.nextId
    ensures WellFormed(d.(votes := d.votes + [v], nextId := d.nextId + 1))
  {
  }

  lemma CastKeepsWellFormed(d: Db, roundId: Id, participantId: Id, value: int, now: int)
    requires WellFormed(d)
    ensures WellFormed(CastStep(d, roundId, participantId, value, now).db)
  {
    match Seqs.Find(d.rounds, RoundIdIs(roundId))
    case None =>
    case Some(ri) =>
      if d.rounds[ri].status == RoundStatus.Voting {
        match Seqs.Find(d.votes, VoteFor(roundId, participantId))
        case Some(vi) => PatchVoteKeepsWellFormed(d, vi, d.votes[vi].(value := value));
        case None =>
          var v := Vote(d.nextId, roundId, participantId, value);
          var e := d.(votes := d.votes + [v], nextId := d.nextId + 1);
          AppendVoteKeepsWellFormed(d, v);
          match Seqs.Find(e.games, GameIdIs(d.rounds[ri].gameId))
          case None =>
          case Some(gi) => Rounds.CloseKeepsWellFormed(e, ri, gi, now);
      }
  }

  lemma RemoveKeepsWellFormed(d: Db, roundId: Id, participantId: Id)
    requires WellFormed(d)
    ensures WellFormed(RemoveStep(d, roundId, participantId).db)
  {
    match Seqs.Find(d.rounds, RoundIdIs(roundId))
    case None =>
    case Some(ri) =>
      match Seqs.Find(d.votes, VoteFor(roundId, participantId))
      case None =>
      case Some(vi) => Rounds.FilterVotesKeepsWellFormed(d, VoteIdIsNot(d.votes[vi].id));
  }

  // ---------------------------------------------------------------------------------------------
  // getStats

  /**
   * getStats: nothing for a missing or unrevealed round or one without votes; otherwise the
   * statistics of the round's vote values.
   */
  method GetStats(d: Db, roundId: Id) returns (r: Option<Statistics.Stats>)
    ensures r.None? <==> Rounds.Get(d, roundId).None? || Rounds.Get(d, roundId).value.status != RoundStatus.Revealed
                         || Rounds.VotesOf(d, roundId) == []
    ensures r.Some? ==> r.value == Statistics.StatsOf(ValuesOf(Rounds.VotesOf(d, roundId)))
  {
    var round := Rounds.Get(d, roundId);
    if round.None? || round.value.status != RoundStatus.Revealed {
      return None;
    }
    var votes := Rounds.VotesOf(d, roundId);
    if |votes| == 0 {
      return None;
    }
    var s := Statistics.ComputeStats(ValuesOf(votes));
    r := Some(s);
  }

  // ---------------------------------------------------------------------------------------------
  // Handlers

  /** cast: the upsert, then, after an insert, the auto-reveal check. */
  method Cast(db: Database.Store, roundId: Id, participantId: Id, value: int, now: int) returns (r: Result<Id, Error>)
    requires db.Valid()
    modifies db
    ensures db.Valid()
    ensures var s := CastStep(old(db.Snapshot()), roundId, participantId, value, now);
            r == s.result && db.Snapshot() == s.db
  {
    var found := Seqs.Find(db.rounds, RoundIdIs(roundId));
    if found.None? {
      return Err(RoundNotFound);
    }
    var ri := found.value;
    var round := db.rounds[ri];
    if round.status == RoundStatus.Revealed {
      return Err(RoundAlreadyRevealed);
    }
    var existing := Seqs.Find(db.votes, VoteFor(roundId, participantId));
    if existing.Some? {
      var vi := existing.value;
      var vote := db.votes[vi];
      db.PatchVote(vi, vote.(value := value));
      return Ok(vote.id);
    }
    var voteId := db.InsertVote(Vote(0, roundId, participantId, value));
    var game := Seqs.Find(db.games, GameIdIs(round.gameId));
    if game.None? {
      return Ok(voteId);
    }
    var voters := Rounds.Voters(db.Snapshot(), round.gameId);
    var votes := Rounds.VotesOf(db.Snapshot(), roundId);
    if Rounds.AllVoted(|votes|, |voters|) {
      Rounds.ClosePatches(db, ri, game.value, now);
    }
    r := Ok(voteId);
  }

  /** remove: delete the caller's vote on a voting round, if there is one. */
  method Remove(db: Database.Store, roundId: Id, participantId: Id) returns (r: Result<(), Error>)
    requires db.Valid()
    modifies db
    ensures db.Valid()
    ensures var s := RemoveStep(old(db.Snapshot()), roundId, participantId);
            r == s.result && db.Snapshot() == s.db
  {
    var found := Seqs.Find(db.rounds, RoundIdIs(roundId));
    if found.None? {
      return Err(RoundNotFound);
    }
    if db.rounds[found.value].status == RoundStatus.Revealed {
      return Err(RoundAlreadyRevealed);
    }
    var existing := Seqs.Find(db.votes, VoteFor(roundId, participantId));
    if existing.Some? {
      db.DeleteVote(db.votes[existing.value].id);
    }
    r := Ok(());
  }
}
