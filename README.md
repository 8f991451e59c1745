# Pairwise voting page — a Dafny model

The page lets a voter rank a fixed roster of people by pairwise comparison.

1. The voter picks their own name. The page builds every pair of roster names with the generator's nested loops. It drops the pairs involving the voter and shuffles the rest with Fisher–Yates.
2. The page shows one pair at a time. A click on either name records a win for that name and a game for both. The cursor then moves to the next pair.
3. The back button takes back the last vote. It can do this only once, because the page keeps a single undo slot made of `previousMatchupIndex`, `previousWinner` and `previousLoser`.
4. At the end, the roster is exported as a list of `{name, wins}` records.

The model has four modules, one per concern of `script.js`:

- `Scoring` covers the entries and their counters:
  - the lookup by name (`items.find`);
  - one vote and its reversal as functions on the roster;
  - the three in-place counter updates as methods proved against those functions;
  - the `{name, wins}` projection.
- `Pairing` covers the pairs:
  - `AllPairs`, the round-robin order the generator emits;
  - the filter that drops the voter's pairs.
- `Shuffling` covers the Fisher–Yates shuffle:
  - it is an in-place method on an array;
  - the random source is a parameter, `draws`, in which `draws[k]` is the index drawn at step `k`;
  - the method is proved equal to a functional specification `Shuffled` and proved to be a permutation.
- `Voting` covers the page's state and its three buttons:
  - the state is a class `Session`, with the roster, the matchups, the cursor and the undo slot as fields;
  - the buttons are `Start`, `VoteForItem1`/`VoteForItem2` (through `HandleVote`) and `GoBack`;
  - it also holds `GenerateInitialMatchups`, with its nested loops and the module-level list it appends to.

The invariant `Session.Valid` holds after every operation. It says:

- every counter is sane: wins are not negative and never exceed games;
- the total of games is twice the cursor, and the total of wins equals the cursor, since each vote adds two games and one win and moves the cursor by one;
- the cursor never passes the end of the matchups;
- every matchup names two entries of the roster;
- when the undo slot is set, it records the vote that led to the current roster.

## Model

| member | source | states |
|---|---|---|
| `Scoring.Find` | script.js:121-122 | `items.find` by name: finds an entry exactly when some entry has that name, and then returns the first index holding it |
| `Scoring.IndexOf` | script.js:121-122 | for a name that is present, the first index whose entry carries it |
| `Scoring.FindDependsOnNames` | script.js:141-142 | lookup depends only on the names, so the back button finds the same entries that the vote found |
| `Scoring.ApplyVote` | script.js:124-126 | the roster after one vote, as the winner's wins and games and then the loser's games are incremented; its own contract is only that the length is kept, and the meaning is carried by `ApplyVoteEffect`, `ApplyVoteKeepsNames`, `ApplyVoteTotals` and `ReverseUndoesApply` |
| `Scoring.ReverseVote` | script.js:144-146 | the roster after the back button's three decrements; its own contract is only that the length is kept, and `ReverseUndoesApply` states that it inverts `ApplyVote` |
| `Scoring.ApplyVoteEffect` | script.js:124-126 | for two different entries, a vote gives the winner one more win and one more game and the loser one more game, and changes no other entry |
| `Scoring.ApplyVoteKeepsNames` | script.js:124-126 | a vote changes counters only, never a name |
| `Scoring.ApplyVoteTotals` | script.js:124-126 | a vote keeps every counter sane, adds exactly two games and one win in total |
| `Scoring.ReverseUndoesApply` | script.js:144-146 | decrementing the same three counters restores every entry exactly |
| `Scoring.Score` | script.js:124-126 | the three increments, in source order, give the vote function's result, including when winner and loser are the same entry |
| `Scoring.Unscore` | script.js:144-146 | the three decrements, in source order, give the reversal function's result |
| `Scoring.VoteStep` | script.js:121-126 | a vote between two named entries keeps the names and brings the tally (sane counters, two games and one win per vote) one vote further |
| `Scoring.UndoStep` | script.js:141-146 | after a vote, both names are still found at the same indices, and reversing there gives back the roster before the vote |
| `Scoring.EncodeResults` | script.js:158-159 | the export has one record per entry, in roster order, with that entry's name and wins |
| `Scoring.ResultsKeepWins` | script.js:159 | the exported wins add up to the roster's total wins |
| `Pairing.Row` | script.js:72-73 | the pairs the inner loop emits for one `i`, one per later name, so as many as there are later names |
| `Pairing.AllPairs` | script.js:70-77 | the reference order of the nested loops: the row of `names[0]`, then all pairs of the rest; it has no ensures of its own, and `AllPairsCount`, `AllPairsComplete`, `AllPairsSound` and `AllPairsUnique` state its properties |
| `Pairing.RowAt` | script.js:72-73 | the k-th pair the inner loop emits for `i` is `(names[i], names[i+1+k])` |
| `Pairing.AllPairsCount` | script.js:71-73 | n names give n·(n-1)/2 pairs |
| `Pairing.AllPairsComplete` | script.js:71-73 | every pair `(names[i], names[j])` with `i < j` is generated |
| `Pairing.AllPairsSound` | script.js:71-73 | every generated pair is some `(names[i], names[j])` with `i < j`, so both sides are roster names |
| `Pairing.AllPairsUnique` | script.js:71-73 | with distinct names, no pair repeats and no name meets itself |
| `Pairing.FilterMatchups` | script.js:85-87 | a pair survives exactly when neither side is the selected user, and the result is no longer than the input |
| `Pairing.FilterAppend` | script.js:86 | filtering distributes over concatenation, so surviving pairs keep their relative order |
| `Pairing.FilterKeepsAll` | script.js:86 | a list with no pair involving the user is returned unchanged |
| `Pairing.ExcludingAnAbsentName` | script.js:86 | excluding a name that is not on the roster keeps every pair |
| `Pairing.FilterAllPairs` | script.js:180 | filtering all pairs of the roster gives exactly all pairs of the roster without the user, in the same order |
| `Pairing.ExcludingAMemberCount` | script.js:180 | excluding one of n distinct names leaves (n-1)·(n-2)/2 pairs, none repeated |
| `Shuffling.Swap` | script.js:48-49 | the destructuring swap of two cells; it keeps the length, and `SwapPermutes` states the exchange |
| `Shuffling.ShuffleFrom` | script.js:44-50 | the remaining steps of the loop once `currentIndex` is `c`: swap cell `c-1` with the drawn cell, then continue with `c-1`; it keeps the length |
| `Shuffling.Shuffled` | script.js:43-51 | the whole shuffle under the draws, starting from `currentIndex = array.length`; it keeps the length, and `ShuffleFromPermutes` makes it a permutation |
| `Shuffling.SwapPermutes` | script.js:48-49 | the destructuring swap exchanges the two cells, leaves the others alone and keeps the multiset |
| `Shuffling.ShuffleFromPermutes` | script.js:43-51 | the shuffle keeps the length and the multiset of elements |
| `Shuffling.ShuffleFromKeepsSuffix` | script.js:45-50 | cells at or above `currentIndex` are never touched again |
| `Shuffling.ShuffledLast` | script.js:44-49 | the last cell ends up holding the element at the first drawn index |
| `Shuffling.Shuffle` | script.js:43-51 | the in-place loop leaves the array equal to the functional shuffle of its old contents under the draws, and a permutation of them |
| `Voting.Session.Display` | script.js:93-97 | the notice shows the matchup at the cursor together with the completed count and the total, exactly when the cursor is inside the matchups |
| `Voting.Session.constructor` | script.js:2-24 | the roster's names with every counter at zero, no matchups, the cursor at 0, an empty undo slot, and the invariant established |
| `Voting.Session.Start` | script.js:177-188 | with a user selected, the matchups become the shuffle (under the draws) of all pairs appended to the old list, minus the user's pairs; they are a permutation of those pairs, the first is shown and the invariant holds. With none selected, nothing changes and the user is asked to pick one |
| `Voting.Session.HandleVote` | script.js:116-134 | the slot takes the cursor and both names, the roster becomes the vote applied at the found indices, the cursor advances by one, and the end notice appears exactly when the cursor reaches the end; the invariant is kept |
| `Voting.Session.GoBack` | script.js:139-152 | with the slot set, the roster returns exactly to its state before the last vote, the cursor to the recorded index, and the index slot is cleared (the names stay); without it, nothing changes; the invariant is kept |
| `Voting.Session.VoteForItem1` | script.js:190-193 | the first name of the current matchup wins against the second, and the next matchup or the end notice is shown |
| `Voting.Session.VoteForItem2` | script.js:195-198 | the second name of the current matchup wins against the first, and the next matchup or the end notice is shown |
| `Voting.Session.Results` | script.js:158-159 | the export of the current roster, whose wins add up to the number of votes in effect |
| `Voting.GenerateInitialMatchups` | script.js:70-77 | the nested loops return the list they were given followed by every pair `i < j` of the entries' names, in round-robin order |
| `Voting.ShuffleMatchups` | script.js:181 | shuffling an array copy of the matchups in place gives the functional shuffle, a permutation |
| `Voting.StartedMatchupsNamed` | script.js:177-181 | after starting, every matchup names two roster entries |
| `Voting.VoteThenUndoTwice` | script.js:116-152 | a vote and then the back button restore the roster and the cursor exactly; pressing back a second time changes nothing |
| `Voting.TwoVotesThenUndo` | script.js:116-152 | the slot holds only the last vote: after two votes and one back press, the first vote stays in effect |
| `Voting.ExcludeFirstOfThree` | script.js:85-87 | with entries A, B, C and A excluded, the only matchup left is B–C |

## Left out

- The DOM is not modelled. This covers the user-selection dropdown (`populateUserSelection`), button labels, visibility toggles and status text. What the page would display is returned as a `Notice` value instead.
- `Math.random` is replaced by the `draws` parameter, one draw per step. Each draw must lie in `[0, currentIndex)` at its step, which is what `Math.floor(Math.random() * currentIndex)` yields.
- JSON serialisation and Base64 encoding in `encodeResults` are not modelled. The model stops at the `{name, wins}` projection, because string encoding is outside its scope.
- The clipboard and `console.log` are input/output and are not modelled.
- The "Please select a user." alert is modelled as the `PleaseSelectUser` notice.
- `displayMatchup` with no matchup at the cursor would throw on `undefined` in the page. This happens when a roster leaves no pair after the user is excluded. The model shows a `NoMatchup` notice instead.
- `Voting.Session.HandleVote`: it requires both names to be on the roster. The listeners always pass names taken from a matchup, and with a missing name the page throws a `TypeError` after writing the undo slot. That crash path is not modelled.
- `Voting.Session.Start`: it requires the cursor at 0. The start button is hidden once voting begins, so no vote can precede it.
- The entry objects that the page mutates in place are a sequence of `Entry` values assigned as a whole. `Score` and `Unscore` perform the three counter updates one by one on that sequence. Object identity and aliasing between entries are not modelled. Because the lookup is by name and returns the first match, this does not change which counters move.
- `shuffle(matchups)` works in place on the page's array. The session keeps its matchups as a sequence: `Start` copies them into an array, runs the in-place `Shuffle` on it, and stores the array's contents back.
- The 15 configured names are not carried as data. For any roster of n names, `Pairing.AllPairsCount` gives n·(n-1)/2 pairs. For distinct names, `Pairing.ExcludingAMemberCount` gives (n-1)·(n-2)/2 pairs once one of them is excluded. For the 15 configured names, which are distinct, that is 105 and 91. The model neither carries nor checks that literal list, so their distinctness is not proved.
- `Voting.Session.Valid` ties the counters to the votes through totals only: games add up to twice the cursor and wins to the cursor. It does not state, entry by entry, that an entry's games equal the number of decided matchups (those before the cursor) that involve it. `HandleVote` accepts any two roster names, not only the two of the matchup at the cursor. The listeners `VoteForItem1` and `VoteForItem2` are what pass exactly that matchup's names.
- `GenerateInitialMatchups` returns the extended list instead of pushing onto a global. `Start` passes in the session's current matchups and assigns the result, which has the same effect.
