/**
 * The document store the handlers run against: four tables held as sequences in insertion
 * order, and the counter that issues ids. Its methods are the store's insert, patch and
 * delete operations; a patch replaces the row at the position the handler looked up.
 */
module Database {
  import opened Schema
  import Seqs

  class Store {
    var games: seq<Game>
    var participants: seq<Participant>
    var rounds: seq<Round>
    var votes: seq<Vote>
    var nextId: Id

    function Snapshot(): Db
      reads this
    {
      Db(games, participants, rounds, votes, nextId)
    }

    ghost predicate Valid()
      reads this
    {
      WellFormed(Snapshot())
    }

    constructor ()
      ensures Valid()
      ensures Snapshot() == Db([], [], [], [], 0)
    {
      games, participants, rounds, votes, nextId := [], [], [], [], 0;
    }

    /** Inserts `g` under a fresh id (the id `g` carries is ignored) and returns that id. */
    method InsertGame(g: Game) returns (id: Id)
      requires Valid()
      modifies this
      ensures Valid()
      ensures id == old(nextId)
      ensures games == old(games) + [g.(id := id)] && participants == old(participants)
      ensures rounds == old(rounds) && votes == old(votes) && nextId == id + 1
    {
      id := nextId;
      games := games + [g.(id := id)];
      nextId := nextId + 1;
    }

    method InsertParticipant(p: Participant) returns (id: Id)
      requires Valid()
      modifies this
      ensures Valid()
      ensures id == old(nextId)
      ensures games == old(games) && participants == old(participants) + [p.(id := id)]
      ensures rounds == old(rounds) && votes == old(votes) && nextId == id + 1
    {
      id := nextId;
      participants := participants + [p.(id := id)];
      nextId := nextId + 1;
    }

    method InsertRound(r: Round) returns (id: Id)
      requires Valid()
      modifies this
      ensures Valid()
      ensures id == old(nextId)
      ensures games == old(games) && participants == old(participants)
      ensures rounds == old(rounds) + [r.(id := id)] && votes == old(votes) && nextId == id + 1
    {
      id := nextId;
      rounds := rounds + [r.(id := id)];
      nextId := nextId + 1;
    }

    method InsertVote(v: Vote) returns (id: Id)
      requires Valid()
      modifies this
      ensures Valid()
      ensures id == old(nextId)
      ensures games == old(games) && participants == old(participants)
      ensures rounds == old(rounds) && votes == old(votes) + [v.(id := id)] && nextId == id + 1
    {
      id := nextId;
      votes := votes + [v.(id := id)];
      nextId := nextId + 1;
    }

    method PatchGame(i: nat, g: Game)
      requires Valid() && i < |games| && g.id == games[i].id
      modifies this
      ensures Valid()
      ensures games == old(games)[i := g] && participants == old(participants)
      ensures rounds == old(rounds) && votes == old(votes) && nextId == old(nextId)
    {
      games := games[i := g];
    }

    method PatchParticipant(i: nat, p: Participant)
      requires Valid() && i < |participants| && p.id == participants[i].id
      modifies this
      ensures Valid()
      ensures games == old(games) && participants == old(participants)[i := p]
      ensures rounds == old(rounds) && votes == old(votes) && nextId == old(nextId)
    {
      participants := participants[i := p];
    }

    method PatchRound(i: nat, r: Round)
      requires Valid() && i < |rounds| && r.id == rounds[i].id
      modifies this
      ensures Valid()
      ensures games == old(games) && participants == old(participants)
      ensures rounds == old(rounds)[i := r] && votes == old(votes) && nextId == old(nextId)
    {
      rounds := rounds[i := r];
    }

    method PatchVote(i: nat, v: Vote)
      requires Valid() && i < |votes| && v.id == votes[i].id
      modifies this
      ensures Valid()
      ensures games == old(games) && participants == old(participants)
      ensures rounds == old(rounds) && votes == old(votes)[i := v] && nextId == old(nextId)
    {
      votes := votes[i := v];
    }

    /** Deletes the vote with id `id`. */
    method DeleteVote(id: Id)
      requires Valid()
      modifies this
      ensures Valid()
      ensures games == old(games) && participants == old(participants)
      ensures rounds == old(rounds) && votes == Seqs.Filter(old(votes), VoteIdIsNot(id)) && nextId == old(nextId)
    {
      Seqs.FilterIncreasing(votes, VoteIdIsNot(id), VoteKey);
      votes := Seqs.Filter(votes, VoteIdIsNot(id));
    }
  }
}
