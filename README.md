# Planning-poker backend, modelled in Dafny

This project models the server side of a planning-poker application. Players create a **game**, and the game
gets a six-character **join code**. Other players **join** the game as voters or spectators under a browser
session id. The game's admin starts **rounds** on a topic. Voters **cast**, change or **remove** a card value
while a round is voting. The round is **revealed** by the admin, or automatically once every voter has voted.
A revealed round can be sent back to voting (**revote**), which deletes its votes. Queries return a game's
participants, its current and latest round, its round history with vote counts and averages, and a round's
votes. While the round is voting, the votes come back with their values hidden. Once the round is revealed,
a query returns the statistics of its votes.

The store holds four tables: games, participants, rounds and votes. Each table is a sequence of records in
insertion order. One counter issues the ids of all four tables, so along each table the ids strictly increase
(`Schema.WellFormed`). The whole invariant, `Schema.Consistent`, adds that no two games share a join code,
that a game has at most one participant row per session, and that a round has at most one vote per
participant. Every handler keeps it: create when its join code is free, and each other handler
unconditionally (the `KeepsConsistent` lemmas).

Every mutation has two parts:

- a pure step function `XStep(d, ...)`, which gives the result (`Ok` or one of the errors) and the store the
  handler leaves behind. When it fails, the store is unchanged, because a failed mutation rolls back;
- an imperative handler on the `Database.Store` class. It performs the same inserts, patches and deletes one at
  a time, and its postcondition says that the result and the new store are exactly those of the step.

Queries are pure functions of a store snapshot. Two operations are methods because their source loops:

- the statistics of a revealed round (`Votes.GetStats`, built from `Statistics.CountValues` and
  `Statistics.LargestCount`);
- the join-code generator, together with its re-roll loop.

The files are:

- `wrappers.dfy`: `Option` and `Result`.
- `seqs.dfy`: ordered scans over a table (filter, first match) and their algebra.
- `schema.dfy`: the records, the enumerations, the store snapshot `Db`, the index keys and the invariants.
- `store.dfy`: the store class and its insert, patch and delete primitives.
- `voting_systems.dfy`: the card decks.
- `statistics.dfy`: the arithmetic of a round's statistics.
- `games.dfy`, `participants.dfy`, `rounds.dfy` and `votes.dfy`: the four backend modules.

Numbers that the application shows rounded, such as averages and the agreement percentage, are integers
here. An average is kept in tenths and rounded half up, the way `Math.round` rounds.

The join-code alphabet of `generateJoinCode` holds 32 characters: the letters without I and O, and the digits
2 to 9 (`Games.AlphabetChars`).

The masking of `getForRound` (`Votes.MaskHidesValues`) does not cover `listHistory`. The history averages
every round of the game, a round still voting included, so the average of a voting round with a single vote
is that hidden vote (`Votes.HistoryShowsHiddenVote`).

## Model

| member | source | states |
|---|---|---|
| Schema.Mirror | packages/backend/convex/schema.ts:8-35 | the game status that mirrors a round status is never the lobby, and it is voting exactly when the round is voting |
| VotingSystems.Info | apps/web/src/lib/voting-systems.ts:1-10 | each voting system has a non-empty label and a deck that starts at 0 and strictly increases |
| VotingSystems.CardValues | apps/web/src/lib/voting-systems.ts:14-16 | every deck starts at 0, strictly increases and has no repeated card |
| VotingSystems.FibonacciCards | apps/web/src/lib/voting-systems.ts:2-5 | the Fibonacci deck is 0,1,2,3,5,8,13,21,34,55,89; from the fourth card on, each card is the sum of the two before it |
| VotingSystems.PowerCards | apps/web/src/lib/voting-systems.ts:6-9 | the power deck is 0,1,2,4,8,16; from the third card on, each card doubles the one before it |
| Games.CharAt | packages/backend/convex/games.ts:6 | the character a draw selects is one of the unambiguous upper-case letters and digits |
| Games.Position | packages/backend/convex/games.ts:6 | every unambiguous character sits at a position of the alphabet that selects it back |
| Games.PositionOfCharAt | packages/backend/convex/games.ts:6 | the alphabet has no repeated character: a draw is recovered from the character it selects |
| Games.AlphabetChars | packages/backend/convex/games.ts:6 | the alphabet has 32 characters: every unambiguous character and none of I, O, 0 and 1 |
| Games.CodeOf | packages/backend/convex/games.ts:5-12 | six draws below 32 give a well-shaped join code |
| Games.DrawsOf | packages/backend/convex/games.ts:5-12 | a well-shaped join code gives back six draws below 32 |
| Games.CodeOfShape | packages/backend/convex/games.ts:5-12 | a generated code has six characters from the alphabet, none of them I, O, 0 or 1, and its draws are recovered from it |
| Games.GenerateJoinCode | packages/backend/convex/games.ts:5-12 | the loop appends one alphabet character per draw and returns the code of the six draws |
| Games.Get | packages/backend/convex/games.ts:67-72 | the game with the given id, or none exactly when no game has that id |
| Games.GetByJoinCode | packages/backend/convex/games.ts:57-65 | a game with the given join code, or none exactly when no game has that code |
| Games.CreateStep | packages/backend/convex/games.ts:36-53 | create always succeeds, returns the join code it used and leaves rounds and votes alone |
| Games.CreateThenLookUp | packages/backend/convex/games.ts:36-65 | after create, the new id and the join code both find the new game: in the lobby with no topic, with the given name, deck and admin session |
| Games.CreateAddsAdmin | packages/backend/convex/games.ts:44-51 | create appends exactly one participant, an online voter under the admin's name and session, to the new game's roster |
| Games.CreateKeepsConsistent | packages/backend/convex/games.ts:22-53 | with a free join code, create keeps ids ordered, join codes unique, one participant per session and one vote per participant and round |
| Games.PickJoinCode | packages/backend/convex/games.ts:22-34 | the re-roll loop returns the code of the first candidate roll that no game uses, and that code is free |
| Games.InsertGameAndAdmin | packages/backend/convex/games.ts:36-53 | the two inserts leave exactly the store of the create step |
| Games.Create | packages/backend/convex/games.ts:14-55 | create returns the first free code and the new game's id, and leaves exactly the store of the create step |
| Participants.List | packages/backend/convex/participants.ts:41-49 | the participants of a game: all of them and only them |
| Participants.ListExact | packages/backend/convex/participants.ts:41-49 | the roster lists the game's rows in id order, that is in insertion order, each row as often as the table holds it and no row of another game |
| Participants.GetMe | packages/backend/convex/participants.ts:51-64 | the participant of a game under a session, or none exactly when there is no such row |
| Participants.JoinStep | packages/backend/convex/participants.ts:5-39 | join always succeeds, touches only the participants table and keeps ids ordered |
| Participants.JoinExisting | packages/backend/convex/participants.ts:14-29 | joining again under a known session returns the existing id and replaces that one row, in place, by itself with the new name and role and marked online; every other row is kept |
| Participants.JoinNew | packages/backend/convex/participants.ts:31-37 | joining under a new session appends one online participant under the next id, at the end of the game's roster |
| Participants.JoinThenGetMe | packages/backend/convex/participants.ts:5-64 | after join, the session's lookup finds the returned id with the given name and role, online |
| Participants.JoinKeepsSessionsUnique | packages/backend/convex/participants.ts:14-37 | join never creates a second row for a game and session |
| Participants.JoinKeepsConsistent | packages/backend/convex/participants.ts:5-39 | join keeps the whole invariant |
| Participants.JoinTwice | packages/backend/convex/participants.ts:14-37 | joining twice under one session returns the same id, and the game then holds one row for that session, carrying the second call's name and role |
| Participants.OneRowPerSession | packages/backend/convex/schema.ts:28 | with one row per session, the index on game and session yields exactly the first match |
| Participants.UpdatePresenceStep | packages/backend/convex/participants.ts:66-76 | updatePresence fails, with the store unchanged, exactly when no participant has the id |
| Participants.UpdatePresenceOnlyFlag | packages/backend/convex/participants.ts:72-74 | a successful updatePresence changes the online flag of that one participant and nothing else |
| Participants.UpdatePresenceKeepsConsistent | packages/backend/convex/participants.ts:66-76 | updatePresence keeps the whole invariant |
| Participants.Join | packages/backend/convex/participants.ts:5-39 | the handler returns the step's id and leaves exactly the step's store |
| Participants.UpdatePresence | packages/backend/convex/participants.ts:66-76 | the handler returns the step's result and leaves exactly the step's store |
| Rounds.Get | packages/backend/convex/rounds.ts:56-57 | the round with the given id, or none exactly when no round has that id |
| Rounds.OfGame | packages/backend/convex/rounds.ts:179-183 | the rounds of a game: all of them and only them |
| Rounds.GetCurrent | packages/backend/convex/rounds.ts:152-162 | a voting round of the game, or none exactly when the game has no voting round |
| Rounds.GetLatest | packages/backend/convex/rounds.ts:164-174 | a round of the game, or none exactly when the game has no round |
| Rounds.VotesOf | packages/backend/convex/rounds.ts:134-137 | the votes of a round: all of them and only them |
| Rounds.VotesOfExact | packages/backend/convex/rounds.ts:134-137 | a round's votes come in id order, each vote of the round once and no vote of another round |
| Rounds.Voters | packages/backend/convex/rounds.ts:127-131 | the voters of a game: every participant of the game whose role is voter, and only those |
| Rounds.VotersExact | packages/backend/convex/rounds.ts:127-131 | the voters come in id order, each voter of the game once and no one else |
| Rounds.AllVoted | packages/backend/convex/rounds.ts:139 | the threshold is never met in a game without voters, nor by a round without votes |
| Rounds.Close | packages/backend/convex/rounds.ts:66-73 | the round becomes revealed at the call's time and the game revealed; every other round and game, the participants, the votes and the id counter are kept |
| Rounds.Reopen | packages/backend/convex/rounds.ts:101-114 | the round becomes voting with no reveal time and the game voting; exactly the round's votes are deleted; every other round and game, the participants and the id counter are kept |
| Rounds.Summary | packages/backend/convex/rounds.ts:188-203 | an entry holds the round and its number of votes; the average is 0 without votes and otherwise lies between ten times the smallest and ten times the largest vote |
| Rounds.CloseCurrent | packages/backend/convex/rounds.ts:18-31 | closing the current round keeps every round's id and game |
| Rounds.StartStep | packages/backend/convex/rounds.ts:5-48 | start fails with game-not-found exactly when the game is missing, and with not-admin exactly when the session is not the admin's; a failure leaves the store unchanged |
| Rounds.RevealStep | packages/backend/convex/rounds.ts:50-75 | reveal fails with round-not-found exactly when the round is missing; a failure leaves the store unchanged |
| Rounds.RevoteStep | packages/backend/convex/rounds.ts:77-116 | revote fails with round-not-found when the round is missing and with not-revealed exactly when it is voting; a failure leaves the store unchanged |
| Rounds.AutoRevealStep | packages/backend/convex/rounds.ts:118-150 | autoReveal fails only when the game is missing, and then the store is unchanged |
| Rounds.ListHistory | packages/backend/convex/rounds.ts:176-209 | the history has one entry per round of the game |
| Rounds.HistoryAt | packages/backend/convex/rounds.ts:179-207 | entry i of the history summarises the i-th newest round of the game |
| Rounds.LastHasLargestId | packages/backend/convex/rounds.ts:170-172 | in a table in insertion order, the last row has the largest id |
| Rounds.LatestIsNewest | packages/backend/convex/rounds.ts:164-174 | getLatest gives the round of the game with the largest id: the one created last |
| Rounds.HistoryNewestFirst | packages/backend/convex/rounds.ts:179-183 | the history is newest first: round ids strictly decrease along it |
| Rounds.HistoryListsRounds | packages/backend/convex/rounds.ts:179-207 | the history lists rounds of the game only, and every round of the game appears in it |
| Rounds.HistoryStartsWithLatest | packages/backend/convex/rounds.ts:164-207 | the history is empty exactly when getLatest finds nothing, and otherwise it starts with the latest round |
| Rounds.HistoryAverage | packages/backend/convex/rounds.ts:188-203 | each entry's vote count is the round's number of votes; its average is 0 for no votes, and otherwise it is the statistics' average and lies between ten times the smallest and ten times the largest vote |
| Rounds.CurrentIsFirstVoting | packages/backend/convex/rounds.ts:152-162 | getCurrent is the first voting round of the game in insertion order |
| Rounds.StartUpdatesGame | packages/backend/convex/rounds.ts:11-46 | a successful start was called by the admin; it returns the new id, sets the game voting on the topic, keeps every other game and touches neither participants nor votes |
| Rounds.StartAppendsRound | packages/backend/convex/rounds.ts:18-38 | start closes the current round and appends a voting round on the topic, which becomes the game's latest round |
| Rounds.StartClosesCurrent | packages/backend/convex/rounds.ts:18-31 | the round that was voting before start is revealed at the call's time |
| Rounds.CloseCurrentLeavesNoVoting | packages/backend/convex/rounds.ts:18-31 | when the game has at most one voting round, closing leaves it none; every round that was not a voting round of the game is untouched |
| Rounds.CloseCurrentKeepsOneVotingRound | packages/backend/convex/rounds.ts:18-31 | closing the current round keeps at most one voting round per game |
| Rounds.AppendKeepsOneVotingRound | packages/backend/convex/rounds.ts:33-38 | appending a round of a game that has no voting round keeps at most one voting round per game |
| Rounds.OnlyVotingRound | packages/backend/convex/rounds.ts:33-38 | appending a voting round to a game without one makes it the game's only voting round, the one getCurrent finds |
| Rounds.StartLeavesOneVotingRound | packages/backend/convex/rounds.ts:18-38 | when the game had at most one voting round, after start the new round is its only voting round and getCurrent finds it |
| Rounds.StartKeepsOneVotingRound | packages/backend/convex/rounds.ts:5-48 | start keeps at most one voting round per game |
| Rounds.RevealAlreadyRevealed | packages/backend/convex/rounds.ts:58 | revealing a revealed round succeeds and changes nothing, whoever asks |
| Rounds.RevealNeedsAdmin | packages/backend/convex/rounds.ts:60-64 | revealing a voting round succeeds exactly when the caller is the game's admin |
| Rounds.RevealByAdmin | packages/backend/convex/rounds.ts:66-73 | the admin's reveal marks the round revealed at the call's time, sets the game revealed, keeps every other round and every other game, and changes no other table |
| Rounds.RevealTwice | packages/backend/convex/rounds.ts:50-75 | reveal is idempotent: revealing a second time, by anyone and at any time, changes nothing |
| Rounds.ReopenClearsVotes | packages/backend/convex/rounds.ts:95-109 | reopening a round deletes all of its votes and keeps the votes of every other round |
| Rounds.RevoteReopens | packages/backend/convex/rounds.ts:83-114 | a successful revote was the admin's on a revealed round; the round is voting again with no reveal time and no votes, the game is voting, and other rounds' votes, every other round and every other game, the participants and the id counter are unchanged |
| Rounds.RevoteNeedsAdmin | packages/backend/convex/rounds.ts:89-93 | revoting a revealed round succeeds exactly when the caller is the game's admin |
| Rounds.AutoRevealNoOp | packages/backend/convex/rounds.ts:123-139 | autoReveal changes nothing on a missing or revealed round, or while some voter has not voted |
| Rounds.AutoRevealIsReveal | packages/backend/convex/rounds.ts:139-148 | once every voter has voted, autoReveal does exactly what the admin's reveal does |
| Rounds.AutoRevealMissingGame | packages/backend/convex/rounds.ts:139-147 | without the game, autoReveal fails exactly when every voter has voted, because patching the game fails |
| Rounds.CloseKeepsOneVotingRound | packages/backend/convex/rounds.ts:66-73 | revealing a round keeps at most one voting round per game |
| Rounds.RevealKeepsOneVotingRound | packages/backend/convex/rounds.ts:50-75 | reveal keeps at most one voting round per game |
| Rounds.AutoRevealKeepsOneVotingRound | packages/backend/convex/rounds.ts:118-150 | autoReveal keeps at most one voting round per game |
| Rounds.RevoteCanReopenSecondRound | packages/backend/convex/rounds.ts:83-114 | revoting an older round while another round of the game is voting leaves the game with two voting rounds |
| Rounds.StartMirrors | packages/backend/convex/rounds.ts:40-44 | after start, the game's status mirrors its latest round |
| Rounds.RevealMirrors | packages/backend/convex/rounds.ts:66-73 | after the admin's reveal, the game's status mirrors the revealed round |
| Rounds.RevoteMirrors | packages/backend/convex/rounds.ts:105-114 | after revote, the game's status mirrors the reopened round |
| Rounds.SameIdsKeepWellFormed | packages/backend/convex/rounds.ts:27-30 | patches that keep every row's id keep the store well formed |
| Rounds.AppendRoundKeepsWellFormed | packages/backend/convex/rounds.ts:34-38 | inserting a round under the next id keeps the store well formed |
| Rounds.FilterVotesKeepsWellFormed | packages/backend/convex/rounds.ts:101-103 | deleting any votes keeps the store well formed |
| Rounds.CloseKeepsWellFormed | packages/backend/convex/rounds.ts:66-73 | revealing a round keeps the store well formed |
| Rounds.StartKeepsWellFormed | packages/backend/convex/rounds.ts:5-48 | start keeps the store well formed |
| Rounds.RevealKeepsWellFormed | packages/backend/convex/rounds.ts:50-75 | reveal keeps the store well formed |
| Rounds.RevoteKeepsWellFormed | packages/backend/convex/rounds.ts:77-116 | revote keeps the store well formed |
| Rounds.AutoRevealKeepsWellFormed | packages/backend/convex/rounds.ts:118-150 | autoReveal keeps the store well formed |
| Rounds.SameCodesKeepJoinCodesUnique | packages/backend/convex/schema.ts:14-17 | patches that keep every game's join code keep the join codes unique |
| Rounds.FilterKeepsVotesUnique | packages/backend/convex/rounds.ts:101-103 | deleting any votes keeps at most one vote per participant and round |
| Rounds.CloseKeepsConsistent | packages/backend/convex/rounds.ts:66-73 | revealing a round keeps the whole invariant |
| Rounds.StartKeepsConsistent | packages/backend/convex/rounds.ts:5-48 | start keeps the whole invariant: ids in order, unique join codes, one row per session, one vote per participant and round |
| Rounds.RevealKeepsConsistent | packages/backend/convex/rounds.ts:50-75 | reveal keeps the whole invariant |
| Rounds.RevoteKeepsConsistent | packages/backend/convex/rounds.ts:77-116 | revote keeps the whole invariant, its deletes included |
| Rounds.AutoRevealKeepsConsistent | packages/backend/convex/rounds.ts:118-150 | autoReveal keeps the whole invariant |
| Rounds.ClosePatches | packages/backend/convex/rounds.ts:66-73 | the two patches leave exactly the store with the round revealed and the game revealed |
| Rounds.Start | packages/backend/convex/rounds.ts:5-48 | the handler returns the step's result and leaves exactly the step's store |
| Rounds.Reveal | packages/backend/convex/rounds.ts:50-75 | the handler returns the step's result and leaves exactly the step's store |
| Rounds.DeleteCollectedVotes | packages/backend/convex/rounds.ts:95-103 | deleting, by id, the votes collected for a round removes exactly that round's votes |
| Rounds.DeleteOneMore | packages/backend/convex/rounds.ts:101-103 | deleting one more collected vote extends the set of deleted ids by that vote's id |
| Rounds.DeleteNone | packages/backend/convex/rounds.ts:101-103 | before the loop has deleted anything, the votes are unchanged |
| Rounds.DeleteVotes | packages/backend/convex/rounds.ts:101-103 | the delete loop removes exactly the votes whose ids were collected and changes no other table |
| Rounds.Revote | packages/backend/convex/rounds.ts:77-116 | the handler returns the step's result and leaves exactly the step's store |
| Rounds.AutoReveal | packages/backend/convex/rounds.ts:118-150 | the handler returns the step's result and leaves exactly the step's store |
| Votes.GetMyVote | packages/backend/convex/votes.ts:120-135 | a vote of the participant in the round, or none exactly when there is no such vote |
| Rounds.GetStored | packages/backend/convex/rounds.ts:56 | with unique ids, looking a stored round up by its id finds that round |
| Votes.Masked | packages/backend/convex/votes.ts:108-113 | a masked vote keeps its id, round and participant, and its value is no card of any deck |
| Votes.GetForRound | packages/backend/convex/votes.ts:97-118 | no votes for a missing round; otherwise the round's votes with their ids and voters, with every value hidden as -1 while voting and the true values once revealed |
| Votes.CastStep | packages/backend/convex/votes.ts:5-68 | cast fails with round-not-found exactly when the round is missing, and with already-revealed exactly when it is revealed; a failure leaves the store unchanged |
| Votes.RemoveStep | packages/backend/convex/votes.ts:70-95 | remove fails with round-not-found exactly when the round is missing, and with already-revealed exactly when it is revealed; a failure leaves the store unchanged |
| Votes.FilterSameButValues | packages/backend/convex/votes.ts:103-106 | two vote tables that differ only in values give round selections that differ only in values |
| Votes.MaskHidesValues | packages/backend/convex/votes.ts:108-114 | while a round is voting, its votes' values cannot be observed: stores that differ only in vote values answer getForRound identically |
| Votes.HistoryShowsHiddenVote | packages/backend/convex/rounds.ts:185-203 | while a round with one vote is voting, getForRound hides its value and its history entry's average is ten times that value |
| Votes.RevealedShowsValues | packages/backend/convex/votes.ts:116 | once a round is revealed, getForRound returns its votes, every one of them with its value |
| Votes.CastUpdate | packages/backend/convex/votes.ts:28-31 | casting again returns the existing vote's id, replaces that one vote, in place, by itself with the new value, keeps every other vote and touches no other table |
| Votes.CastInsert | packages/backend/convex/votes.ts:33-64 | a first cast appends a vote under the next id and returns that id; the round is revealed at the call's time exactly when the game exists and every voter has now voted; no other round or game changes, and neither the round nor its game changes unless the round completes |
| Votes.CastInsertFrame | packages/backend/convex/votes.ts:39-64 | a first cast changes no round but its own and no game but its round's, and those only when the round completes |
| Votes.CastInsertIsAutoReveal | packages/backend/convex/votes.ts:39-64 | when the game exists, a first cast is the insert followed by autoReveal |
| Votes.CastThenGetMyVote | packages/backend/convex/votes.ts:5-135 | after a successful cast, the caller's vote in the round has the returned id and the cast value |
| Votes.PatchKeepsVotesUnique | packages/backend/convex/votes.ts:28-30 | patching a vote's value keeps one vote per participant and round |
| Votes.AppendKeepsVotesUnique | packages/backend/convex/votes.ts:33-37 | inserting a vote for a participant with no vote in the round keeps one vote per participant and round |
| Votes.CastKeepsVotesUnique | packages/backend/convex/votes.ts:18-37 | the upsert in cast keeps one vote per participant and round |
| Votes.CastLeavesOneVote | packages/backend/convex/votes.ts:18-37 | after a successful cast, the participant has exactly one vote in the round |
| Votes.AtMostOneFor | packages/backend/convex/schema.ts:46 | with one vote per participant and round, the index on round and participant matches at most one vote, and exactly one when there is any |
| Votes.OtherIdsKept | packages/backend/convex/votes.ts:92 | deleting an id no vote has keeps every vote |
| Votes.NeighboursKept | packages/backend/convex/votes.ts:92 | deleting a vote's id keeps the votes before it and after it |
| Votes.DeleteById | packages/backend/convex/votes.ts:92 | deleting a vote by id removes that vote and no other |
| Votes.IncreasingIdsDistinct | packages/backend/convex/schema.ts:40-46 | along a table in insertion order, no two rows share an id |
| Votes.RemoveDeletes | packages/backend/convex/votes.ts:82-93 | on a voting round remove succeeds; without a vote it changes nothing, and with one it deletes exactly that vote and changes no other table |
| Votes.RemoveThenGetMyVote | packages/backend/convex/votes.ts:70-135 | after a successful remove, the participant has no vote in the round |
| Votes.PatchVoteKeepsWellFormed | packages/backend/convex/votes.ts:29 | patching a vote keeps the store well formed |
| Votes.AppendVoteKeepsWellFormed | packages/backend/convex/votes.ts:33-37 | inserting a vote under the next id keeps the store well formed |
| Votes.CastKeepsWellFormed | packages/backend/convex/votes.ts:5-68 | cast keeps the store well formed |
| Votes.RemoveKeepsWellFormed | packages/backend/convex/votes.ts:70-95 | remove keeps the store well formed |
| Votes.CastKeepsConsistent | packages/backend/convex/votes.ts:5-68 | cast keeps the whole invariant |
| Votes.RemoveKeepsConsistent | packages/backend/convex/votes.ts:70-95 | remove keeps the whole invariant, its delete included |
| Votes.GetStats | packages/backend/convex/votes.ts:137-184 | no statistics exactly when the round is missing, not revealed or has no votes; otherwise the statistics of the round's vote values |
| Votes.Cast | packages/backend/convex/votes.ts:5-68 | the handler returns the step's result and leaves exactly the step's store |
| Votes.Remove | packages/backend/convex/votes.ts:70-95 | the handler returns the step's result and leaves exactly the step's store |
| Statistics.Sum | packages/backend/convex/votes.ts:150-151 | the total of n votes lies between n times the smallest and n times the largest vote |
| Statistics.SumIsReduce | packages/backend/convex/votes.ts:151 | the total is the left fold from 0 that `reduce` computes, and folding from any start adds the total to it |
| Statistics.Min | packages/backend/convex/votes.ts:153 | the smallest vote: one of the values, and no value is below it |
| Statistics.Max | packages/backend/convex/votes.ts:154 | the largest vote: one of the values, and no value is above it |
| Statistics.Count | packages/backend/convex/votes.ts:158-161 | a value's count is at most the number of votes, and positive exactly when the value occurs |
| Statistics.CountIsMultiplicity | packages/backend/convex/votes.ts:158-161 | a value's count is its multiplicity among the votes |
| Statistics.CountSnoc | packages/backend/convex/votes.ts:158-161 | one more vote raises its own value's count by one, and no other |
| Statistics.Distribution | packages/backend/convex/votes.ts:156-161 | the distribution has a key for exactly the values that occur, each mapped to its positive count |
| Statistics.DistributionSnoc | packages/backend/convex/votes.ts:158-161 | one more vote raises its value's entry by one, or adds the value with count one |
| Statistics.MaxCountOver | packages/backend/convex/votes.ts:168-171 | the largest count over some keys bounds all of them and is reached, unless it is 0 |
| Statistics.MaxCount | packages/backend/convex/votes.ts:168-171 | the largest count bounds every value's count and is reached by some vote |
| Statistics.MaxCountUnique | packages/backend/convex/votes.ts:168-171 | any bound on the counts that some vote reaches is the largest count |
| Statistics.RoundHalfUp | packages/backend/convex/votes.ts:172-175 | rounding half up yields an integer within one half of the exact quotient, with halves going up |
| Statistics.RoundHalfUpUnique | packages/backend/convex/votes.ts:172-175 | only one integer is within one half of the quotient with halves going up, so the rounding is determined |
| Statistics.AverageTenths | packages/backend/convex/votes.ts:175 | the average is 0 for no votes, and otherwise the tenth nearest the mean, halves going up |
| Statistics.Distinct | packages/backend/convex/votes.ts:164 | the distinct values are exactly the values that occur, the keys of the distribution |
| Statistics.DistinctAtMost | packages/backend/convex/votes.ts:164 | there are never more distinct values than votes |
| Statistics.StatsOf | packages/backend/convex/votes.ts:174-182 | the statistics count every vote, take the extremes, keep the average between ten times the extremes, key the distribution by exactly the values, declare consensus exactly when the extremes coincide and keep the agreement between 0 and 100 |
| Statistics.LargestCount | packages/backend/convex/votes.ts:168-171 | the loop over the distribution finds a count no entry exceeds and that some entry has, or 0 for an empty distribution |
| Statistics.CountValues | packages/backend/convex/votes.ts:156-161 | the loop builds exactly the distribution of the values |
| Statistics.ComputeStats | packages/backend/convex/votes.ts:150-182 | the statistics of a non-empty list of values: average in tenths, extremes, total, distribution, consensus and agreement percentage |
| Statistics.RoundedBetween | packages/backend/convex/votes.ts:172-175 | a rounded quotient of a ratio between two integers stays between them |
| Statistics.AverageWithinRange | packages/backend/convex/votes.ts:150-175 | the rounded average lies between the smallest and the largest vote |
| Statistics.ConsensusIff | packages/backend/convex/votes.ts:163-165 | consensus holds exactly when every vote equals the first, and exactly when the smallest and largest votes are equal |
| Statistics.AgreementRange | packages/backend/convex/votes.ts:167-172 | the largest count is between 1 and the number of votes, so the agreement percentage is between 0 and 100 |
| Statistics.ConsensusFullAgreement | packages/backend/convex/votes.ts:163-172 | under consensus, the largest count is the number of votes and agreement is 100 percent |
| Statistics.AllSame | packages/backend/convex/votes.ts:163-165 | when every vote has one value, that value's count is the number of votes |
| Statistics.ExampleDistribution | packages/backend/convex/votes.ts:156-161 | votes 5, 8 and 5 have the distribution 5 to 2 and 8 to 1 |
| Statistics.ExampleDistinct | packages/backend/convex/votes.ts:163-165 | votes 5, 8 and 5 have two distinct values, so no consensus |
| Statistics.ExampleAgreement | packages/backend/convex/votes.ts:167-172 | votes 5, 8 and 5 have largest count 2 and agreement 67 percent |
| Statistics.ExampleAverage | packages/backend/convex/votes.ts:150-175 | votes 5, 8 and 5 have minimum 5, maximum 8 and average 6.0 |
| Statistics.ExampleFiveEightFive | packages/backend/convex/votes.ts:150-182 | the full statistics of votes 5, 8 and 5 |
| Statistics.RoundingHalvesUp | packages/backend/convex/votes.ts:175 | an exact half rounds up, as Math.round does: votes 0, 1, 1 and 1 average 0.75, shown as 0.8; and -2.5 rounds to -2 |
| Statistics.SumCountsSnoc | packages/backend/convex/votes.ts:158-161 | one more vote raises the total count over distinct keys by one when its value is among them |
| Statistics.SumCountsNone | packages/backend/convex/votes.ts:157 | no votes count nothing |
| Statistics.SumCountsTotal | packages/backend/convex/votes.ts:156-161 | over distinct keys covering every vote, the counts add up to the number of votes |
| Statistics.SumOverDistribution | packages/backend/convex/votes.ts:156-161 | adding distribution entries over some keys adds their counts |
| Statistics.DistributionTotal | packages/backend/convex/votes.ts:156-178 | the distribution's entries add up to the total number of votes |

## Left out

- `Math.random` is not modelled. The join-code generator takes the six draws as a parameter. The create
  handler takes a list of candidate rolls and requires that one of them is free, standing for the random source
  eventually producing an unused code. The source would loop forever otherwise.
- `Date.now()` is a `now` parameter of every handler that stamps a reveal time.
- Floating point is left out.
  - Vote values, averages and percentages are integers.
  - An average is kept in tenths (the model's `averageTenths` is ten times the source's rounded `average`).
  - The rounding is done on exact rationals. Where a decimal product such as `avg * 10` is inexact in binary
    floating point, the source's result can differ. For instance, when 23 of 40 votes agree, `23 / 40 * 100` is
    57.49999999999999 in double precision and `Math.round` gives 57, where the model's exact 57.5 gives 58.
  - Non-integer card values do not occur in either deck.
- The distribution keys are the vote values themselves. The source keys it by `String(val)`, which is the same
  grouping for integers.
- Reactivity, subscriptions and concurrent mutations are left out. Each handler is one atomic step on one
  store, as a Convex mutation is.
- Document ids: one counter issues them for all four tables. Convex ids are opaque, so the model keeps only
  their equality and their creation order. A larger id means a later insert.
- A `patch` on a missing document makes the mutation throw and roll back. In the source this can happen only in
  updatePresence (unknown participant) and in autoReveal (missing game once every voter has voted). The model
  returns an error and leaves the store unchanged.
- A vote's and a participant's referenced game, round and participant are not checked, as in the source.
  Games.CreateKeepsConsistent therefore assumes that no participant already points at the id the new game
  receives.
- The indexes `by_adminSessionId` and `by_sessionId` are declared in the schema and used by no handler, so
  they are not modelled.
- Schema.Mirror: the game status mirrors its latest round after start, reveal and revote, but this is not a
  global invariant of the model. Revoting an older round while a newer one is voting leaves two voting rounds,
  and then the game's status follows whichever round was touched last (Rounds.RevoteCanReopenSecondRound).
- Rounds.ListHistory: its own contract states only the entry count. What the history contains, its order, and
  each entry's count and average are stated by the History lemmas beside it.
- Rounds.CloseCurrent: its own contract states only that ids and games are kept. What it closes is stated by
  Rounds.CloseCurrentLeavesNoVoting and Rounds.StartClosesCurrent.
- The session-id hook, the environment settings and the React components are not part of this model.
