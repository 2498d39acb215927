/** The participant roster: who is in a game, under which name and role, and whether they are online. */
module Participants {
  import opened Wrappers
  import opened Schema
  import Seqs
  import Database

  /** The participants of a game (index by_gameId), in insertion order. */
  function List(d: Db, gameId: Id): (r: seq<Participant>)
    ensures forall i :: 0 <= i < |r| ==> r[i] in d.participants && r[i].gameId == gameId
    ensures forall i :: 0 <= i < |d.participants| && d.participants[i].gameId == gameId ==> d.participants[i] in r
  {
    Seqs.Filter(d.participants, InGame(gameId))
  }

  /**
   * The roster lists the game's rows in the order of their ids, each as often as the table holds
   * it (once, as ids are unique), and no row of another game.
   */
  lemma ListExact(d: Db, gameId: Id)
    requires WellFormed(d)
    ensures var r := List(d, gameId);
            && (forall i, j :: 0 <= i < j < |r| ==> r[i].id < r[j].id)
            && (forall x :: multiset(r)[x] == if x.gameId == gameId then multiset(d.participants)[x] else 0)
  {
    Seqs.FilterIncreasing(d.participants, InGame(gameId), ParticipantKey);
    Seqs.FilterMultiplicity(d.participants, InGame(gameId));
  }

  /** The caller's participant row in a game (index by_gameId_sessionId), if any. */
  function GetMe(d: Db, gameId: Id, sessionId: string): (r: Option<Participant>)
    ensures r.Some? ==> r.value in d.participants && r.value.gameId == gameId && r.value.sessionId == sessionId
    ensures r.None? <==> forall i :: 0 <= i < |d.participants| ==>
      !(d.participants[i].gameId == gameId && d.participants[i].sessionId == sessionId)
  {
    Seqs.First(d.participants, SessionIs(gameId, sessionId))
  }

  /** The effect of join: patch the caller's existing row, or insert one. */
  function JoinStep(d: Db, gameId: Id, displayName: string, role: Role, sessionId: string): (s: Step<Id>)
    ensures s.result.Ok?
    ensures s.db.games == d.games && s.db.rounds == d.rounds && s.db.votes == d.votes
    ensures WellFormed(d) ==> WellFormed(s.db)
  {
    match Seqs.Find(d.participants, SessionIs(gameId, sessionId))
    case Some(i) =>
      var p := d.participants[i];
      Step(Ok(p.id), d.(participants := d.participants[i := p.(displayName := displayName, role := role, isOnline := true)]))
    case None =>
      var id := d.nextId;
      Step(Ok(id), d.(participants := d.participants + [Participant(id, gameId, displayName, role, sessionId, true)],
                      nextId := id + 1))
  }

  /** A repeated join patches only the name, role and presence of the row it finds, and returns that row's id. */
  lemma JoinExisting(d: Db, gameId: Id, displayName: string, role: Role, sessionId: string)
    requires GetMe(d, gameId, sessionId).Some?
    ensures var p := GetMe(d, gameId, sessionId).value;
            var s := JoinStep(d, gameId, displayName, role, sessionId);
            && s.result == Ok(p.id)
            && |s.db.participants| == |d.participants|
            && s.db.nextId == d.nextId
            && (forall k :: 0 <= k < |d.participants| ==>
                 s.db.participants[k] == d.participants[k]
                 || (d.participants[k] == p && s.db.participants[k] == p.(displayName := displayName, role := role, isOnline := true)))
            && exists i :: 0 <= i < |d.participants| && d.participants[i] == p
                 && s.db.participants == d.participants[i := p.(displayName := displayName, role := role, isOnline := true)]
  {
    var i := Seqs.Find(d.participants, SessionIs(gameId, sessionId)).value;
    assert GetMe(d, gameId, sessionId) == Some(d.participants[i]);
  }

  /** A first join appends exactly one row, online, at the end of the game's roster. */
  lemma JoinNew(d: Db, gameId: Id, displayName: string, role: Role, sessionId: string)
    requires GetMe(d, gameId, sessionId).None?
    ensures var s := JoinStep(d, gameId, displayName, role, sessionId);
            var row := Participant(d.nextId, gameId, displayName, role, sessionId, true);
            && s.result == Ok(d.nextId)
            && s.db.participants == d.participants + [row]
            && List(s.db, gameId) == List(d, gameId) + [row]
  {
    var row := Participant(d.nextId, gameId, displayName, role, sessionId, true);
    Seqs.FilterAppend(d.participants, [row], InGame(gameId));
  }

  /** After join the caller finds their own row, online, with the name and role just given. */
  lemma JoinThenGetMe(d: Db, gameId: Id, displayName: string, role: Role, sessionId: string)
    ensures var s := JoinStep(d, gameId, displayName, role, sessionId);
            GetMe(s.db, gameId, sessionId) == Some(Participant(s.result.value, gameId, displayName, role, sessionId, true))
  {
    var s := JoinStep(d, gameId, displayName, role, sessionId);
    match Seqs.Find(d.participants, SessionIs(gameId, sessionId))
    case Some(i) =>
      Seqs.FindAt(s.db.participants, SessionIs(gameId, sessionId), i);
    case None =>
      Seqs.FindAt(s.db.participants, SessionIs(gameId, sessionId), |d.participants|);
  }

  /** join keeps at most one row per (gameId, sessionId). */
  lemma JoinKeepsSessionsUnique(d: Db, gameId: Id, displayName: string, role: Role, sessionId: string)
    requires SessionsUnique(d.participants)
    ensures SessionsUnique(JoinStep(d, gameId, displayName, role, sessionId).db.participants)
  {
  }

  /** join keeps the whole invariant. */
  lemma JoinKeepsConsistent(d: Db, gameId: Id, displayName: string, role: Role, sessionId: string)
    requires Consistent(d)
    ensures Consistent(JoinStep(d, gameId, displayName, role, sessionId).db)
  {
    JoinKeepsSessionsUnique(d, gameId, displayName, role, sessionId);
  }

  /** Two joins with the same session leave exactly one row for it, carrying the second call's name and role. */
  lemma JoinTwice(d: Db, gameId: Id, sessionId: string, name1: string, role1: Role, name2: string, role2: Role)
    requires SessionsUnique(d.participants)
    ensures var s1 := JoinStep(d, gameId, name1, role1, sessionId);
            var s2 := JoinStep(s1.db, gameId, name2, role2, sessionId);
            && s2.result == s1.result
            && Seqs.Filter(s2.db.participants, SessionIs(gameId, sessionId))
               == [Participant(s1.result.value, gameId, name2, role2, sessionId, true)]
  {
    var s1 := JoinStep(d, gameId, name1, role1, sessionId);
    var s2 := JoinStep(s1.db, gameId, name2, role2, sessionId);
    JoinThenGetMe(d, gameId, name1, role1, sessionId);
    JoinKeepsSessionsUnique(d, gameId, name1, role1, sessionId);
    JoinKeepsSessionsUnique(s1.db, gameId, name2, role2, sessionId);
    JoinThenGetMe(s1.db, gameId, name2, role2, sessionId);
    OneRowPerSession(s2.db.participants, gameId, sessionId);
  }

  /** Under SessionsUnique the row getMe finds is the only row of its session. */
  lemma OneRowPerSession(ps: seq<Participant>, gameId: Id, sessionId: string)
    requires SessionsUnique(ps)
    requires Seqs.Find(ps, SessionIs(gameId, sessionId)).Some?
    ensures Seqs.Filter(ps, SessionIs(gameId, sessionId)) == [ps[Seqs.Find(ps, SessionIs(gameId, sessionId)).value]]
  {
    var i := Seqs.Find(ps, SessionIs(gameId, sessionId)).value;
    Seqs.FilterUpdate(ps, i, ps[i], SessionIs(gameId, sessionId));
    NoRowBefore(ps, i, gameId, sessionId);
    NoRowAfter(ps, i, gameId, sessionId);
    assert Seqs.Filter([ps[i]], SessionIs(gameId, sessionId)) == [ps[i]] by {
      assert [ps[i]][1..] == [];
    }
    assert [] + [ps[i]] + [] == [ps[i]];
  }

  lemma NoRowBefore(ps: seq<Participant>, i: nat, gameId: Id, sessionId: string)
    requires i <= |ps| && forall j :: 0 <= j < i ==> !SessionIs(gameId, sessionId)(ps[j])
    ensures Seqs.Filter(ps[..i], SessionIs(gameId, sessionId)) == []
  {
    assert forall j :: 0 <= j < i ==> ps[..i][j] == ps[j];
    Seqs.FilterNoneAt(ps[..i], SessionIs(gameId, sessionId));
  }

  lemma NoRowAfter(ps: seq<Participant>, i: nat, gameId: Id, sessionId: string)
    requires SessionsUnique(ps) && i < |ps| && SessionIs(gameId, sessionId)(ps[i])
    ensures Seqs.Filter(ps[i + 1..], SessionIs(gameId, sessionId)) == []
  {
    var after := ps[i + 1..];
    forall k | 0 <= k < |after| ensures !SessionIs(gameId, sessionId)(after[k]) {
      assert after[k] == ps[i + 1 + k];
    }
    Seqs.FilterNoneAt(after, SessionIs(gameId, sessionId));
  }

  /** The effect of updatePresence: set the isOnline flag of one participant; a missing one makes the patch fail. */
  function UpdatePresenceStep(d: Db, participantId: Id, isOnline: bool): (s: Step<()>)
    ensures s.result.Err? <==> forall i :: 0 <= i < |d.participants| ==> d.participants[i].id != participantId
    ensures s.result.Err? ==> s.result.error == ParticipantNotFound && s.db == d
    ensures WellFormed(d) ==> WellFormed(s.db)
  {
    match Seqs.Find(d.participants, ParticipantIdIs(participantId))
    case None => Step(Err(ParticipantNotFound), d)
    case Some(i) =>
      Step(Ok(()), d.(participants := d.participants[i := d.participants[i].(isOnline := isOnline)]))
  }

  /** updatePresence changes the isOnline field of the named participant and nothing else. */
  lemma UpdatePresenceOnlyFlag(d: Db, participantId: Id, isOnline: bool)
    requires WellFormed(d)
    ensures var s := UpdatePresenceStep(d, participantId, isOnline);
            && s.db.(participants := d.participants) == d
            && |s.db.participants| == |d.participants|
            && forall k :: 0 <= k < |d.participants| ==>
                 s.db.participants[k] ==
                   if d.participants[k].id == participantId then d.participants[k].(isOnline := isOnline)
                   else d.participants[k]
  {
  }
  /** updatePresence keeps the whole invariant: it touches no game, session or vote. */
  lemma UpdatePresenceKeepsConsistent(d: Db, participantId: Id, isOnline: bool)
    requires Consistent(d)
    ensures Consistent(UpdatePresenceStep(d, participantId, isOnline).db)
  {
  }


  /** join: upsert on (gameId, sessionId). */
  method Join(db: Database.Store, gameId: Id, displayName: string, role: Role, sessionId: string) returns (id: Id)
    requires db.Valid()
    modifies db
    ensures db.Valid()
    ensures var s := JoinStep(old(db.Snapshot()), gameId, displayName, role, sessionId);
            s.result == Ok(id) && db.Snapshot() == s.db
  {
    var existing := Seqs.Find(db.participants, SessionIs(gameId, sessionId));
    if existing.Some? {
      var i := existing.value;
      var p := db.participants[i];
      db.PatchParticipant(i, p.(displayName := displayName, role := role, isOnline := true));
      return p.id;
    }
    id := db.InsertParticipant(Participant(0, gameId, displayName, role, sessionId, true));
  }

  /** updatePresence: patch the isOnline flag of one participant. */
  method UpdatePresence(db: Database.Store, participantId: Id, isOnline: bool) returns (r: Result<(), Error>)
    requires db.Valid()
    modifies db
    ensures db.Valid()
    ensures var s := UpdatePresenceStep(old(db.Snapshot()), participantId, isOnline);
            r == s.result && db.Snapshot() == s.db
  {
    var found := Seqs.Find(db.participants, ParticipantIdIs(participantId));
    if found.None? {
      return Err(ParticipantNotFound);
    }
    var i := found.value;
    db.PatchParticipant(i, db.participants[i].(isOnline := isOnline));
    r := Ok(());
  }
}
