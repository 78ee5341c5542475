# averagegame round engine, in Dafny

A model of the game controller in `main.js`. It is a party game of
"closest to the scaled average": every alive player secretly types a number
(or plays their one joker), a fixed chain of rules decides who wins the
round, the others lose points, and anyone at or below -10 is out.

The model has six modules:

- `Round` is the pure specification of one round:
  - the submissions (`Entry`, `Sub`) and the numeric ones (`Ballot`);
  - the folds processRound computes (`Numeric`, `Total`, `Holding`, `AtDist`, `MinDist`, `Tally`);
  - the rule chain `Resolve`: revelation, 0-100 duel, end-game duplicate, end-game exact match, then
    the default closest-to-target rule;
  - the score change `Delta` each rule gives a player.
- `RoundProps` proves what the chain promises, rule by rule: when each rule fires, who wins, and
  what every alive player loses.
- `Resolver` holds the loops of processRound, the `isPrime` trial division, the `minDiff` pass and
  the `counts` tally, each proved equal to its specification function.
- `Names` models `trim().toUpperCase()` on player names.
- `Controller` models `gameState` as the class `Game`:
  - the roster, the round counter and the joker selections;
  - the handlers addPlayer, handleJokerClick, processRound, updateAndDisplayResults, nextRound and
    resetGame, plus the state part of startRound;
  - `PlayRound`, a function stating what one processRound call does to the roster.
- `Scenarios` works through concrete rounds.

Arithmetic is exact. JavaScript works in doubles. The model keeps integers:
- With n numeric submissions summing to T and a multiplier m = tenths / 10, the target is
  T·tenths / (10n).
- A number x is compared by the scaled distance |10n·x − tenths·T|, which orders players exactly as
  |x − target| does.
- The revelation target `Math.round(T / n * 0.8)` is floor((16T + 10n) / (20n)).

The revelation target is `Math.round(mean × 0.8)` (`main.js:116`), not `Math.round(mean)`.
`Scenarios.RevelationTargetNotPrime` and `Scenarios.RevelationUsesScaledMean` are inputs where
round(mean) would be 18 and 13 (the second prime), but the code computes 14 and 10. Neither is
prime, so revelation does not fire.

processRound subtracts penalties rule by rule inside each branch. The model has the chain decide the
`Outcome` first, then one loop adds `Delta(outcome, name, joker)` to every alive player. This is
equivalent because no rule reads the scores and names in the roster are distinct. The DOM input boxes
are a parameter `boxes: map<string, Option<nat>>`: `None` is an empty box, `Some(n)` a box holding
a non-negative integer n.

## Model

| member | source | states |
|---|---|---|
| Round.Resolve | main.js:110-194 | definition: the rule chain, first applicable rule wins (revelation, 0-100 duel, end-game duplicate, end-game exact match, default closest rule); its properties are the RoundProps rows |
| Round.Numeric | main.js:110 | definition: `inputs.filter(p => p.number !== 'JOKER')`, order kept; never longer than its input |
| Round.Total | main.js:114 | definition: the `reduce` sum of the numeric submissions |
| Round.RoundHalfUp | main.js:116 | definition: `Math.round` of a non-negative quotient, floor(num / den + 1/2) |
| Round.RevelationTarget | main.js:114-116 | definition: `Math.round(total / n * 0.8)` in exact arithmetic |
| Round.IsPrime | main.js:118-122 | definition: greater than one with no divisor between 2 and itself, the reference the `isPrime` loop is proved against |
| Round.Holding | main.js:125 | definition: the names of the ballots carrying exactly a given value, in order |
| Round.HasDuplicate | main.js:151 | definition: two different ballots carry the same value, the reference the `counts` test is proved against |
| Round.Tally | main.js:150 | definition: the `counts` object, value to number of ballots |
| Round.TallyRepeats | main.js:151 | definition: `Object.values(counts).some(count => count > 1)` |
| Round.Dist | main.js:181 | definition: `Math.abs(p.number - target)` scaled by 10n so that it is an integer |
| Round.AtDist | main.js:163 | definition: the names of the ballots at a given scaled distance, in order; at distance 0 under 1.2 it is `exactWinners` |
| Round.MinDist | main.js:179-184 | definition: the least scaled distance, None (`Infinity`) exactly when there are no ballots |
| Round.ClosestNames | main.js:174-185 | definition: the default winners, every ballot at the least distance, in order |
| Round.IsZeroHundred | main.js:138-139 | definition: the two sorted values are exactly 0 and 100 |
| Round.DuelName | main.js:140-141 | definition: `numberInputs.find(p => p.number === v).name` for a two-ballot duel |
| Names.IsJsSpace | main.js:9 | definition: the ECMAScript WhiteSpace and LineTerminator characters `trim` removes |
| Names.Trim | main.js:9 | definition: `trim()`, trim-start then trim-end |
| Names.UpperChar | main.js:9 | definition: `toUpperCase` on one ASCII character |
| Names.Normalize | main.js:9 | definition: `trim().toUpperCase()`, the name addPlayer stores |
| Controller.HasName | main.js:10 | definition: `players.some(p => p.name === name)` |
| Controller.AliveCount | main.js:220 | definition: `players.filter(p => p.isAlive).length`, at most the roster length |
| Controller.Selected | main.js:90 | definition: `jokerSelections[name]` is truthy, an absent key reading as false |
| Controller.Toggle | main.js:66 | definition: `jokerSelections[name] = !jokerSelections[name]` |
| Controller.Missing | main.js:89-91 | definition: an alive player with an empty box and no joker selected |
| Controller.MarkJokers | main.js:99-102 | definition: every alive joker user gets `hasUsedJoker` set, nobody else changes |
| Controller.Scored | main.js:127-192 | definition: an alive player's score plus the rule's delta; a dead player unchanged |
| Controller.ScoreAll | main.js:127-192 | definition: `Scored` applied to every roster player |
| Controller.Fall | main.js:203-204 | definition: an alive player at or below -10 is marked not alive |
| Controller.Eliminate | main.js:202-206 | definition: `Fall` applied to every roster player |
| Controller.EliminatedNames | main.js:201-206 | definition: `newlyEliminated`, the names of the alive players at or below -10, in roster order |
| Round.RoundHalfUpNearest | main.js:116 | `Math.round` as modelled is the nearest integer, halves rounded up: 2d·r ≤ 2·num + d < 2d·(r + 1) |
| Round.MinDistLeast | main.js:179-184 | the `minDiff` the pass ends with is the least distance over the ballots and some ballot attains it |
| Round.Delta | main.js:127-192 | no rule ever raises a score, and none lowers it by more than 2 |
| Names.TrimStart | main.js:9 | `trim` drops exactly the leading JavaScript white space: a suffix whose dropped part is all space and whose first character is not |
| Names.TrimEnd | main.js:9 | the same at the end: a prefix whose dropped tail is all space and whose last character is not |
| Names.Upper | main.js:9 | upper-casing keeps the length and maps every character through `UpperChar` |
| Names.TrimEnds | main.js:9 | a trimmed name is empty or starts and ends with a non-space |
| Names.NormalizeIsNormal | main.js:9 | every stored name has no surrounding space and no lower-case ASCII letter |
| Names.NormalFixed | main.js:9 | normalising an already normal name returns it unchanged |
| Names.NormalizeIdempotent | main.js:9-10 | normalising twice equals normalising once, so a stored name retyped matches itself in the `some` check |
| Names.NormalizeBlank | main.js:9-10 | the `if (name && …)` test fails exactly when the typed text is all white space |
| RoundProps.NumericMember | main.js:110 | a ballot is in `numberInputs` iff its author's entry carries that number |
| RoundProps.EntryNamed | main.js:98-108 | with distinct names an entry carrying player i's name is player i's own |
| RoundProps.HoldingMember | main.js:125 | the revelation winners are exactly the ballots carrying the prime |
| RoundProps.AtDistMember | main.js:163 | the names at distance d are exactly the ballots whose value lies at distance d |
| RoundProps.ClosestMember | main.js:179-184 | the default winners are exactly the ballots no other ballot is closer than |
| RoundProps.ClosestNonEmpty | main.js:175-185 | the default rule has a winner iff someone submitted a number |
| RoundProps.TallyCount | main.js:150 | every counted value's tally is the number of ballots carrying it |
| RoundProps.CountPositive | main.js:150 | a value occurs on some ballot iff its count is positive |
| RoundProps.CountTwo | main.js:150-151 | a count above one means two different ballots carry the value, and vice versa |
| RoundProps.RepeatsIff | main.js:150-151 | the `counts` test `some(count => count > 1)` holds iff two ballots carry the same number |
| RoundProps.HoldingOnEntries | main.js:125 | an alive player is a revelation winner iff they typed the prime |
| RoundProps.AtDistOnEntries | main.js:163 | an alive player is at distance d iff they typed a number at distance d |
| RoundProps.AtDistNonEmpty | main.js:163-165 | the names at distance d are non-empty iff some alive player typed a number at that distance |
| RoundProps.ClosestOnEntryWinner | main.js:179-184 | a default winner typed a number nobody beat |
| RoundProps.ClosestOnEntryNearest | main.js:179-184 | a player whose number nobody beat is a default winner |
| RoundProps.ClosestOnEntries | main.js:175-185 | the default winners are exactly the alive players nobody is closer than, and there is one iff someone typed a number |
| RoundProps.RevelationIff | main.js:113-126 | revelation fires iff four are alive, the round is 5 or later, someone typed a number, round(mean × 0.8) is prime and someone typed it |
| RoundProps.RevelationOutcome | main.js:125-130 | under revelation the winners are exactly those who typed the prime; everyone else loses 2, joker users included |
| RoundProps.NumericOfPair | main.js:137-138 | with two alive, `numberInputs` has two ballots iff both typed numbers, and it then holds both in order |
| RoundProps.FinalDuelIff | main.js:137-139 | the duel fires iff two are alive and their two numbers are 0 and 100 in either order |
| RoundProps.FinalDuelOutcome | main.js:140-143 | in the duel the 100-typer is the sole winner, the 0-typer loses 1, the winner loses nothing |
| RoundProps.DuplicateIff | main.js:149-156 | the duplicate rule fires iff at most three are alive and two typed the same number; then nobody wins and every alive player loses 1 |
| RoundProps.DuplicateFires | main.js:149-155 | a repeated number with at most three alive always reaches the duplicate rule, since the duel pattern has two different values |
| RoundProps.DuplicateIsNoDuel | main.js:137-153 | a repeated number is never the 0-100 pair |
| RoundProps.DuelHasNoExactHit | main.js:159-165 | the 0-100 duel pair has no number equal to mean × 1.2 (60) |
| RoundProps.ExactMatchIff | main.js:159-165 | with at most three alive, some number typed and no duplicate, the exact rule fires iff someone typed exactly mean × 1.2 |
| RoundProps.ExactMatchOutcome | main.js:163-167 | the exact winners are exactly the players on mean × 1.2; everyone else loses 2, joker users included |
| RoundProps.ExactMatchFallThrough | main.js:149-173 | with at most three alive and no duplicate, duel or exact hit, the default rule uses the multiplier 1.2 |
| RoundProps.ClosestRule | main.js:173-185 | the default rule uses 1.2 with at most three alive and 0.8 otherwise; its winners are exactly the nearest numeric submitters |
| RoundProps.ClosestPenalty | main.js:187-192 | under the default rule a player loses 1 iff they are neither a winner nor a joker user |
| RoundProps.FiveOrMoreAlive | main.js:113-185 | with five or more alive no special rule applies: the default rule with 0.8 decides |
| RoundProps.FourAliveNoRevelation | main.js:113-185 | with four alive and no prime hit, the default rule with 0.8 decides |
| RoundProps.EndGameDefault | main.js:137-173 | with at most three alive and no duel, duplicate or exact hit, the default rule with 1.2 decides |
| RoundProps.WinnersSubmittedNumbers | main.js:125-184 | whichever rule fires, every winner is an alive player who typed a number |
| Resolver.NoDivisorBelowRoot | main.js:118-122 | trial division up to the square root suffices to establish primality |
| Resolver.IsPrimeLoop | main.js:118-122 | the `isPrime` loop returns true iff its argument is prime |
| Resolver.ClosestSnoc | main.js:180-184 | one more ballot: a strictly closer one restarts the winners, an equally close one joins them, a farther one changes nothing |
| Resolver.ClosestWinners | main.js:174-185 | the `minDiff` pass returns exactly the default winners |
| Resolver.HasDuplicates | main.js:150-151 | the `counts` reduce reports a duplicate iff two ballots carry the same number |
| Resolver.ResolveRound | main.js:110-185 | processRound's rule chain takes the branch and winners the specification `Resolve` gives |
| Controller.FirstIncomplete | main.js:88-95 | the validation stop is None iff every alive player typed a number or chose the joker, else the first such player in roster order |
| Controller.EntryOf | main.js:99-106 | an alive player's entry carries their name, and is JOKER iff they selected the joker |
| Controller.Entries | main.js:98-108 | `inputs` has one entry per alive player |
| Controller.PlayRound | main.js:83-207 | an incomplete round aborts and changes nothing; otherwise the outcome is the rule chain's on the collected entries |
| Controller.RoundEffect | main.js:98-207 | per player: name kept, eliminated players untouched, an alive score moves by the rule's delta in [-2, 0], joker flags set exactly for alive joker users, alive afterwards iff alive before and above -10 |
| Controller.RosterKept | main.js:83-207 | changing scores and flags while keeping names keeps the roster's distinct normalised names |
| Controller.ToggleTwice | main.js:66 | a click flips only the clicked player's selection, and two clicks restore it |
| Controller.AliveCountTwo | main.js:220-221 | more than one alive iff two different roster entries are alive |
| Controller.AliveCountOne | main.js:220-221 | someone is alive iff the alive count is positive |
| Controller.EntriesMember | main.js:98-108 | every entry comes from an alive player and every alive player contributes exactly its entry |
| Controller.EntriesUnique | main.js:98-108 | distinct roster names give distinct entry names |
| Controller.EliminatedMember | main.js:201-207 | `newlyEliminated` lists exactly the alive players at or below -10 |
| Controller.EliminatedReported | main.js:200-207 | a complete round's report names exactly the players it took out of the game |
| Controller.EntryOfAlive | main.js:98-108 | every alive player's entry is in `inputs` |
| Controller.RevelationRound | main.js:125-129 | in a revelation round an alive player keeps their score iff they typed the prime without a joker, else loses 2 |
| Controller.ClosestRound | main.js:179-192 | in a default round an alive player keeps their score iff they played the joker or nobody is closer, else loses 1 |
| Controller.FindIncomplete | main.js:88-95 | the validation loop stops on exactly the player `FirstIncomplete` names |
| Controller.CollectEntries | main.js:98-108 | the collect loop builds exactly `Entries` and flags exactly the alive joker users |
| Controller.ApplyDeltas | main.js:127-192 | every alive player's score moves by the rule's delta; nobody else changes |
| Controller.EliminateAll | main.js:201-207 | the elimination loop gives exactly `Eliminate` and `EliminatedNames` |
| Controller.Game.constructor | main.js:232-235 | a new game has no players, round 1 and no selections |
| Controller.Game.FindName | main.js:10 | `players.some(p => p.name === name)` |
| Controller.Game.CountAlive | main.js:220 | the number of alive players |
| Controller.Game.AddPlayer | main.js:8-19 | the normalised name is appended with score 0, alive and joker unused iff it is non-empty and new; otherwise nothing changes and a taken name is reported |
| Controller.Game.HandleJokerClick | main.js:62-66 | the selections are the old ones with this player's flipped; nothing else changes |
| Controller.Game.StartRound | main.js:24-26 | a new round starts with no joker selections |
| Controller.Game.ProcessRound | main.js:83-195 | the report and the new roster are what `PlayRound` gives; the roster stays valid; round and selections unchanged |
| Controller.Game.UpdateAndDisplayResults | main.js:200-207 | alive players at or below -10 leave the game and are reported in roster order |
| Controller.Game.NextRound | main.js:219-227 | the game ends iff at most one is alive; otherwise the round goes up by one and the selections are cleared |
| Controller.Game.ResetGame | main.js:232-235 | no players, round 1, no selections |
| Scenarios.FiveAliveDefaultRule | main.js:173-192 | five alive typing 30..70 in round 1: target 40, the 40-typer wins alone |
| Scenarios.RevelationTargetNotPrime | main.js:113-185 | four alive in round 6 typing 10, 20, 15, 25: round(17.5 × 0.8) = 14 is not prime and the 15 wins |
| Scenarios.RevelationUsesScaledMean | main.js:114-124 | four alive in round 6 typing 11..14: the revelation target is 10, not 13, and the 11 wins |
| Scenarios.RevelationFires | main.js:113-130 | four alive in round 5 typing 2, 3, 5 and a joker: the target 3 is prime and its typer wins alone |
| Scenarios.DuelScenario | main.js:137-143 | 0 against 100: the 100-typer wins the duel and the 0-typer is the loser |
| Scenarios.DuplicateScenario | main.js:149-155 | three alive typing 20, 20, 50: the duplicate rule fires with no winners |
| Scenarios.EliminationAtMinusTen | main.js:173-207 | a player at -9 who loses the default rule drops to -10, is out and is reported |

## Left out

- Floating point: JavaScript compares doubles. On some inputs the exact-match test `p.number === target` and ties against the double target can differ from exact arithmetic. The model compares exactly.
- Text in the boxes: the box is free text. Its `pattern` and `inputmode` attributes (`ui.js:129`) only hint and validate forms, and processRound is a click handler. The model takes a box to be empty or to hold a non-negative integer. `parseInt` of any other text (`main.js:105`: a sign, a decimal point, NaN) is not modelled.
- A missing box: processRound would throw when an alive player has no input element. `ProcessRound` and `FindIncomplete` require every alive player to have a box.
- Unicode case mapping: `toUpperCase` is modelled on the ASCII letters only.
- The DOM, alerts and the one-second `setTimeout` before the elimination screen are not modelled. `Report` holds the round's outcome and the names eliminated, which the result and elimination screens announce.
- `Report` does not carry the result object's `inputs`, `average`, `target` and `multiplier` (main.js:167, main.js:194). The screen only displays them. The entries are `Controller.Entries`, and the target is the exact rational `Round.Target(count, total, tenths)` that `Round.Resolve` builds from the numeric entries.
- The player-selection screen and `currentUser` in startRound are not modelled, only the reset of the joker selections.
- The state handling covers only the game state. The initial-state file state.js and the `totalPlayers` setting read by resetGame are not part of this model.
- The UI gates are not modelled:
  - the joker button is disabled for players who already used their joker (`ui.js:130`);
  - the add and start buttons depend on the player count (`ui.js:73-75`).
  Game.HandleJokerClick therefore accepts any name.
- handleJokerClick's clearing of the box when the joker is selected is not modelled. Only the processRound inputs passed in count.
- `find` by name on `gameState.players` (`main.js:101`) is modelled by index, which is the same thing under distinct names.
