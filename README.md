# STV manipulation: a Dafny model

This project models the tabulation and ballot-rewriting core of
`manipulation.py`. That program simulates strategic manipulation of a
Single Transferable Vote election over the fixed candidates 1 to 11.

- A **ballot** is the list of string tokens read from one record of the
  vote file (`Ballots.Ballot = seq<string>`). A plain numeral names a
  candidate. A token holding `{` or `}` marks a tied preference.
- A **profile** is the list of all ballots (`Ballots.Profile`). It becomes
  an `array<Ballot>` wherever the source changes it in place.
- `str(n)` is `Text.NumeralOf`. `int(s)` is `Text.IsIntLiteral` (the strings
  it accepts: optional surrounding whitespace, an optional sign, ASCII
  digits) together with `Text.IntValue`.

The modules follow the source's functions:

- `Ballots` holds `count_votes` and `eliminate_candidate`.
  - The specification functions are `Count` and `Eliminate`.
  - The in-place methods are `CountVotes` and `EliminateCandidate`.
- `Stv` holds `STV`.
  - The numpy tally becomes an `array<Score>`, where `Infinite` is `inf`.
  - `np.argmin` becomes `ArgMin`.
  - One round is `Round`; the whole loop is the method `Stv`.
  - `Stv` is proved against the functions `Loser`, `Tabulate` and `StvOutcome`.
- `StvExample` works one election through all ten rounds.
- `Manipulation` holds `get_profile_with_k_empty` and `manipulate`.
  - The markings vector is an `array<bool>`: `true` is 1 (used) and `false` is 0 (free).
  - `random.sample` becomes a `sample` parameter that must be a valid draw.
  - Each loop of `manipulate` is a method with its own specification:
    `RunOrder` is proved against `Rounds`, `BoostRound` against `Boosted` and
    `FirstDeficit`, `PushCandidate` against `FillFree` and `AllUsed`,
    `ConsumeFree` against `LowestFree` and `MoveToFront`, and `TallyOrder`
    against `Tally`; `Unmarked` and `PlaceCoalition` state their results as
    quantified facts about the markings and the indices.
- `Records` holds the record expansion of `get_profile`.
- `Text` and `Lists` model the Python string and list operations that the
  code relies on: `strip`, `split`, `str`, `int`, `list.remove` and
  `range`; `Lists.FirstIndex` says which occurrence `list.remove` deletes.

What the model shows about the code as written:

- **`count_votes` counts only plain numerals.** It counts exactly the
  ballots whose first token is a plain numeral for the candidate. The tie
  branches compare an `int` with a `str`, so they never add anything.
- **`eliminate_candidate` removes one token per ballot.** It deletes only
  the first occurrence of the candidate's numeral, and it never deletes a
  tie marker.
- **`STV` always runs exactly ten rounds.**
  - Each round eliminates a distinct candidate: the lowest id among those
    with the fewest first preferences.
  - The winner is the one candidate never eliminated.
  - An all-empty profile elects 11.
- **`manipulate` works on positions, not on the order's entries.**
  - Round `i` boosts token `str(j)` for positions `j`, and then eliminates
    candidate number `i`; it does not eliminate `order[i-1]`.
  - The tally is not recomputed inside the `while`. So any deficit consumes
    every free ballot and then fails.
  - A working order consumes no free ballot at all.
- **`manipulate` returns the same shape whether or not the order worked.**
  Every sampled index holds `reversed(order)` and every other index is
  unchanged.
- **The coalition's ballot ranks the order's last candidate first.** So the
  coalition adds exactly `k` first preferences to that candidate and to no
  other, because the code builds the ballot as `list(reversed(str_order))`.

## Model

| member | source | states |
|---|---|---|
| Ballots.Count | manipulation.py:61-86 | the tally is at most the number of ballots |
| Ballots.ContributionHeads | manipulation.py:66-84 | one ballot adds 1 exactly when its first token is a plain numeral equal to the candidate; empty and tie-marked ballots add 0 |
| Ballots.CountIsHeadedBallots | manipulation.py:61-86 | `count_votes` equals the number of ballot indices whose first token is the candidate's plain numeral |
| Ballots.CountAppend | manipulation.py:64-84 | counting distributes over concatenation of profiles |
| Ballots.CountSingle | manipulation.py:64-84 | a one-ballot profile counts that ballot's contribution |
| Ballots.CountUpdate | manipulation.py:64-84 | replacing one ballot changes the count by the difference of the two ballots' contributions |
| Ballots.CountVotes | manipulation.py:61-86 | the loop returns exactly `Count` of the profile |
| Ballots.WellFormedHeads | manipulation.py:81 | if every token is readable by `int()` or tie-marked, then so is every ballot's first token |
| Ballots.EmptyBallotsCountNothing | manipulation.py:66-67 | emptied ballots give every candidate zero votes |
| Ballots.EliminateKeepsEmpty | manipulation.py:124-128 | eliminating a candidate leaves emptied ballots as they are |
| Ballots.CopyProfile | manipulation.py:90 | the copy is a fresh array with the same ballots (also used at lines 154-155) |
| Ballots.EliminateFromShape | manipulation.py:125-126 | a ballot holding `str(candidate)` loses exactly its first occurrence, with the other tokens in order; any other ballot is unchanged |
| Ballots.TieMarkersSurvive | manipulation.py:125-126 | every tie-marked token keeps its multiplicity |
| Ballots.EliminateFromSubset | manipulation.py:125-126 | elimination adds no token |
| Ballots.EliminateWellFormed | manipulation.py:120-130 | elimination keeps every token readable |
| Ballots.EliminateAbsent | manipulation.py:124-128 | a candidate whose numeral is on no ballot leaves the profile unchanged |
| Ballots.EliminateCandidate | manipulation.py:120-130 | in place, the profile becomes `Eliminate` of the old one, with the same number of ballots in the same order |
| Ballots.EliminateExample | manipulation.py:120-130 | eliminating 2 from `[["1","2"],["2"],[]]` gives `[["1"],[],[]]` |
| Ballots.MoveToFront | manipulation.py:194-198 | the boosted token heads the ballot |
| Ballots.MoveToFrontMultiset | manipulation.py:194-198 | the ballot's tokens are unchanged if the token was there, and the token is added once otherwise |
| Ballots.MoveToFrontTokens | manipulation.py:194-198 | no token other than the boosted one appears |
| Ballots.MoveToFrontVotes | manipulation.py:194-198 | a boosted ballot counts for `j` and for no other candidate |
| Ballots.MoveToFrontWellFormed | manipulation.py:194-200 | boosting one ballot keeps the profile readable |
| Stv.CandidatesIncreasing | manipulation.py:92 | `list(range(1, 12))` is increasing and holds exactly 1..11 |
| Stv.CandidatesSplit | manipulation.py:92 | the first ten candidates are 1..10 and the last is 11 |
| Stv.ArgMin | manipulation.py:107 | the index holds a least entry, and every earlier entry is strictly larger (the first minimum) |
| Stv.Loser | manipulation.py:96-107 | the loser remains, has a count no larger than any remaining candidate's, and is strictly smaller than every remaining candidate with a lower id |
| Stv.LoserUnique | manipulation.py:107 | those properties determine the loser uniquely |
| Stv.Tabulate | manipulation.py:95-116 | one candidate is eliminated per round until one is left |
| Stv.TabulatePermutes | manipulation.py:107-114 | the eliminated candidates followed by the winner are a permutation of the candidates that remained |
| Stv.EliminationOrderShape | manipulation.py:107-114 | a permutation of 1..11 split into eliminations and a winner has ten distinct eliminations, and the winner is exactly the candidate never eliminated |
| Stv.StvEliminatesAllButWinner | manipulation.py:92-117 | `STV` runs ten rounds over distinct candidates, and its winner is in 1..11 and is the only candidate never removed |
| Stv.EmptyBallotsLoser | manipulation.py:96-107 | with all ballots empty, a round eliminates the lowest remaining id |
| Stv.EmptyBallotsStep | manipulation.py:107-110 | with all ballots empty, a round removes the first remaining id and leaves the ballots unchanged |
| Stv.EmptyBallotsEliminateInOrder | manipulation.py:95-116 | with all ballots empty, candidates are eliminated in increasing order and the last one wins |
| Stv.PrependFirst | manipulation.py:110 | eliminating the first candidate and then the rest in order eliminates all in order |
| Stv.StvOfEmptyBallots | manipulation.py:89-117 | an all-empty profile eliminates 1..10 in order and elects 11 |
| Stv.AbsentGoFirst | manipulation.py:95-116 | candidates with no votes and no token on any ballot are eliminated first, in increasing order, before the race among candidates with votes, which runs as it would without them |
| Stv.PrependRemoved | manipulation.py:110 | eliminating `absent[0]` and then the rest of `absent` eliminates all of `absent` first |
| Stv.AbsentLoser | manipulation.py:103-107 | the lowest zero-vote candidate loses against candidates that all have votes |
| Stv.AbsentRemoved | manipulation.py:109 | `candidates.remove` of that candidate leaves the others in order |
| Stv.ArgMinIsLoser | manipulation.py:96-107 | `np.argmin` of the round's tally, plus one, is `Loser` |
| Stv.TabulateStep | manipulation.py:107-110 | one round unfolded: the loser goes first, then the tabulation of the eliminated profile |
| Stv.MarkRemoved | manipulation.py:96-100 | the fresh tally has eleven entries: `inf` at eliminated candidates and 0 elsewhere |
| Stv.PartialTally | manipulation.py:103-104 | the partial tally has eleven entries |
| Stv.PartialTallyStep | manipulation.py:104 | counting one more candidate changes only its own entry |
| Stv.PartialTallyDone | manipulation.py:103-104 | once all remaining candidates are counted, the tally is the round's tally |
| Stv.TallyRound | manipulation.py:96-104 | entry `c - 1` holds `c`'s count while `c` remains, and `inf` once it is eliminated |
| Stv.BetweenInitially | manipulation.py:90-93 | the starting state agrees with `StvOutcome` |
| Stv.BetweenAdvances | manipulation.py:107-110 | after a round the state still agrees with the same final outcome |
| Stv.OutcomeAdvances | manipulation.py:110 | moving the loser from the outcome to `removed` keeps the outcome |
| Stv.BetweenFinished | manipulation.py:113-115 | with one candidate left, that candidate is the outcome's winner |
| Stv.Round | manipulation.py:96-110 | the round eliminates exactly `Loser`, and the working profile becomes `Eliminate` of it |
| Stv.Stv | manipulation.py:89-117 | the returned winner is `StvOutcome`'s winner, and the caller's profile is left unmodified |
| StvExample.ElectionOutcome | manipulation.py:89-117 | with 3×`1,2,3`, 2×`2,1,3` and 1×`3,1,2`, candidates 4..11 go first, then 3, then 2, and 1 wins |
| StvExample.ElectionAmongThree | manipulation.py:95-116 | among 1, 2 and 3: 3 goes first, then 2, and 1 wins |
| StvExample.ElectionRound1 | manipulation.py:103-110 | the first round among 1, 2 and 3 eliminates 3 |
| StvExample.ElectionRound2 | manipulation.py:103-116 | the next round eliminates 2, and 1 wins |
| StvExample.ElectionCount | manipulation.py:61-86 | first preferences are 3, 2 and 1 for candidates 1, 2 and 3, and 0 for anyone else |
| StvExample.ElectionWithout3Count | manipulation.py:61-86 | after 3 is eliminated, first preferences are 4 and 2 for candidates 1 and 2 |
| StvExample.ElectionLoser | manipulation.py:107 | candidate 3 is the first loser among 1..3 |
| StvExample.LastOfThree | manipulation.py:107 | among 1, 2 and 3, a strictly smallest count for 3 makes 3 the loser |
| StvExample.ElectionEliminate3 | manipulation.py:120-130 | eliminating 3 gives the expected ballots |
| StvExample.ElectionAbsentVotes | manipulation.py:61-86 | candidates 4..11 have no first preferences |
| StvExample.ElectionAbsentNumerals | manipulation.py:125 | no ballot holds a numeral of 4..11 |
| StvExample.ElectionTokens | manipulation.py:53 | every token of the example ballots is `"1"`, `"2"` or `"3"` |
| StvExample.ElectionReadable | manipulation.py:81 | the example ballots are readable throughout |
| StvExample.CountThree | manipulation.py:64-84 | three ballots add their three contributions |
| StvExample.CountSix | manipulation.py:64-84 | the six-ballot shape adds three, two and one contributions |
| StvExample.SmallNumerals | manipulation.py:125 | `str(1)`, `str(2)` and `str(3)` are the tokens `"1"`, `"2"` and `"3"` |
| StvExample.SmallBallot | manipulation.py:125 | a ballot over `"1"`, `"2"` and `"3"` is readable and holds no other candidate's numeral |
| StvExample.RoundOf | manipulation.py:107-110 | one round from a known loser and a known eliminated profile |
| Manipulation.NoSampleBeyondPopulation | manipulation.py:135 | `random.sample` has no valid draw for a negative `k` or one above the number of ballots |
| Manipulation.Emptied | manipulation.py:138-139 | emptying keeps the number of ballots |
| Manipulation.GetProfileWithKEmpty | manipulation.py:133-148 | the markings are fresh with one entry per ballot and are 0 exactly at the sampled indices; the sampled ballots become `[]` and every other ballot is unchanged |
| Manipulation.FreeAfterSample | manipulation.py:134-140 | the free (0) markings are exactly the sampled indices, and there are `k` of them |
| Manipulation.LowestFree | manipulation.py:189 | the result is the first 0 marking, or the length when there is none |
| Manipulation.FirstFree | manipulation.py:187-189 | the scan returns `LowestFree` |
| Manipulation.LowestFreeUnique | manipulation.py:189 | those properties determine the first free index |
| Manipulation.FreeShrinks | manipulation.py:190 | marking a free ballot removes exactly it from the free set, which shrinks by one |
| Manipulation.ConsumeFree | manipulation.py:187-203 | one `while` step either marks the lowest free ballot and puts `str(j)` at its front, or changes nothing and reports failure |
| Manipulation.UsedBelow | manipulation.py:186-190 | the markings keep their length |
| Manipulation.FilledBelow | manipulation.py:186-200 | the working profile keeps its length |
| Manipulation.FillFree | manipulation.py:186-200 | every free ballot has `token` moved to its front, and every used ballot is unchanged |
| Manipulation.AllUsed | manipulation.py:201-202 | no ballot is left free |
| Manipulation.ConsumeStep | manipulation.py:186-200 | each step moves to the next free ballot and extends the filled prefix by one; with none left, everything free has been filled |
| Manipulation.PushCandidate | manipulation.py:186-203 | with the stale tally, a deficit fills every free ballot with `str(j)`, uses them all and fails; otherwise nothing changes |
| Manipulation.FirstDeficit | manipulation.py:182-186 | the result is the first position from `j` on whose tally is below position `i`'s, or none when there is no such position |
| Manipulation.BoostRound | manipulation.py:182-203 | the `for j` loop's new state is `Boosted`: unchanged if there is no deficit, else the first deficit's numeral is pushed onto every free ballot and the order fails |
| Manipulation.Tally | manipulation.py:180 | there is one count per order position |
| Manipulation.TallyOrder | manipulation.py:180 | the list comprehension returns `Tally` |
| Manipulation.Round | manipulation.py:176-215 | a round keeps the profile readable and its length unchanged |
| Manipulation.FillFreeWellFormed | manipulation.py:194-200 | boosting keeps the profile readable |
| Manipulation.Rounds | manipulation.py:176-178 | the rounds keep the profile readable and its length unchanged |
| Manipulation.RunOrder | manipulation.py:164-215 | the loop's final profile, markings and `order_works` are `Rounds` from round 1 |
| Manipulation.RoundsConsumption | manipulation.py:176-203 | a working order consumes no free ballot; a failing order consumes every one; once failed, nothing changes |
| Manipulation.Coalition | manipulation.py:219-220 | the coalition ballot lists the order's numerals from last to first |
| Manipulation.WithCoalition | manipulation.py:218-220 | the result has as many ballots as the input |
| Manipulation.Unmarked | manipulation.py:158-162 | the list is increasing and holds exactly the indices whose marking is 0 |
| Manipulation.PlaceCoalition | manipulation.py:218-220 | every listed index gets the coalition ballot, and every other ballot is unchanged |
| Manipulation.Manipulate | manipulation.py:151-225 | the caller's profile is emptied at the sample; the fresh result holds the coalition ballot at every sampled index and the original ballot elsewhere, whatever `order_works` became |
| Manipulation.EmptiedWellFormed | manipulation.py:138-139 | emptying keeps every token readable |
| Manipulation.CoalitionHead | manipulation.py:219-220 | the coalition ballot is headed by the numeral of the order's last candidate |
| Manipulation.CoalitionHeadsFor | manipulation.py:219-220 | the coalition ballot counts for a candidate exactly when it is the order's last |
| Manipulation.CoalitionHeadedBy | manipulation.py:218-220 | the ballots headed by a candidate after the coalition is placed are those of the emptied profile, plus all sampled indices when the coalition counts for it |
| Manipulation.CoalitionReadable | manipulation.py:218-220 | the emptied and the manipulated profiles can both be counted |
| Manipulation.CoalitionVotes | manipulation.py:218-225 | the coalition adds exactly `k` first preferences to the order's last candidate and none to anyone else |
| Records.Repeat | manipulation.py:52-53 | `n` copies of the ballot |
| Records.GetProfile | manipulation.py:42-53 | the loops return `ProfileFromLines`: after the 23 header lines, `number` copies of each record's ballot, in file order |
| Records.ExpandSnoc | manipulation.py:44-53 | one more record appends its copies |
| Records.ExpandAppend | manipulation.py:44-53 | expansion distributes over concatenation of record lists |
| Records.ExpandLength | manipulation.py:44-53 | the profile has one ballot per voter: its length is the sum of the counts, negative counts adding none |
| Records.HeaderIgnored | manipulation.py:42 | the 23 header lines do not reach the profile, whatever they hold |
| Records.RecordRoundTrip | manipulation.py:46-53 | the line `str(n):a,b,c` parses and expands to `n` copies of `["a","b","c"]` (none when `n` is negative) |
| Records.JoinPlain | manipulation.py:49-53 | plain tokens joined by commas contain no colon, no whitespace and no comma inside a token |
| Text.StripLeftShape | manipulation.py:49 | the left strip removes a whitespace prefix and stops at a non-space |
| Text.StripRightShape | manipulation.py:49 | the right strip removes a whitespace suffix and stops at a non-space |
| Text.StripIsInfix | manipulation.py:49 | `strip()` keeps an infix with only whitespace before and after it |
| Text.StripUnpadded | manipulation.py:49 | `strip()` leaves a string without surrounding whitespace unchanged |
| Text.Split | manipulation.py:53 | `split` gives at least one piece, and no piece holds the separator |
| Text.JoinSplit | manipulation.py:53 | joining the pieces of `split` gives back the string |
| Text.SplitAfterPrefix | manipulation.py:46 | a separator-free prefix joins the first piece |
| Text.SplitJoin | manipulation.py:53 | splitting a join of separator-free pieces gives back the pieces |
| Text.DigitChar | manipulation.py:125 | a digit value below 10 gives a digit character |
| Text.DigitValue | manipulation.py:81 | a digit character has a value below 10 |
| Text.NatNumeral | manipulation.py:125 | `str(n)` of a natural number is digits without a leading zero |
| Text.NumeralOf | manipulation.py:125 | `str(n)` is digits and minus signs and is not empty |
| Text.NatNumeralValue | manipulation.py:81 | reading the digits of `str(n)` gives `n` |
| Text.NumeralRoundTrip | manipulation.py:81 | `int(str(n)) == n` |
| Text.NumeralInjective | manipulation.py:125 | different candidates have different numerals |
| Text.IntLiteralHasNoBrace | manipulation.py:70-81 | a string `int()` accepts holds no `{` or `}`, so it takes the plain branch |
| Text.SpacesHaveNoBrace | manipulation.py:70-81 | whitespace holds no brace |
| Text.SignedDigitsHaveNoBrace | manipulation.py:70-81 | signed digits hold no brace |
| Lists.FirstIndex | manipulation.py:125-126 | the index holds the first occurrence |
| Lists.RemoveFirst | manipulation.py:126 | `list.remove` shortens the list by one |
| Lists.RemoveFirstAt | manipulation.py:126 | `list.remove` deletes exactly the first occurrence and keeps the rest in order |
| Lists.RemoveFirstMultiset | manipulation.py:126 | `list.remove` takes away one copy and nothing else |
| Lists.RemoveFirstThenPrepend | manipulation.py:109-110 | putting the removed element back restores the multiset |
| Lists.RemoveFirstKeepsOthers | manipulation.py:126 | every other element survives |
| Lists.RemoveFirstSubset | manipulation.py:126 | nothing is added |
| Lists.Range | manipulation.py:92 | `range(lo, hi)` has `hi - lo` elements counting up from `lo` |
| Lists.RemoveFirstIncreasing | manipulation.py:109 | removing from an increasing list keeps it increasing |
| Lists.IndicesWhereSnoc | manipulation.py:64 | adding a ballot adds its index exactly when it qualifies |
| Lists.DistinctOnce | manipulation.py:135 | a list without repeats holds each element at most once |
| Lists.PermutationSameElements | manipulation.py:109-110 | permutations have the same length and elements |
| Lists.PermutationDistinct | manipulation.py:109-110 | a permutation of a list without repeats has none |
| Lists.PermutationSplitLast | manipulation.py:109-114 | splitting a permutation of a list without repeats leaves exactly the last element out of the front |
| Lists.DistinctElements | manipulation.py:135 | a list without repeats has as many elements as its set |
| Lists.DistinctBelow | manipulation.py:135 | distinct indices below `n` number at most `n` |

## Left out

- File and pickle I/O is left out: `generate_elimination_orders`, `get_elimination_orders`, the `open` calls in `get_profile`, `compare_profiles`, and the result writes. `Records.GetProfile` takes the file's lines, already right-stripped (line 39).
- The search drivers `find_other_winner` and `main` are left out. Their only decision is `winner != original_winner`, which sits on top of `Stv.Stv`, and `main`'s loop has no bound.
- Randomness is left out: `random.sample` becomes the `sample` parameter of `Manipulation.GetProfileWithKEmpty` and `Manipulation.Manipulate`, and `random.choice` becomes their `order` parameter.
- `VERBOSE` printing, `time` measurements and the commented-out unmarking block (lines 205-212) are left out.
- Ballots are values, not shared Python lists. `eliminate_candidate` and `manipulate` mutate ballot lists that other lists alias. The model updates the array slot instead, so an effect through another alias is not modelled.
- Floating point is left out. The numpy tally holds whole counts or `inf` (`Stv.Score`), because the `+= 0.5` tie branches are never taken. The markings vector is `bool`, because it only ever holds 0 and 1.
- `None` ballots (line 66) are left out: a ballot is a list, and the empty list takes the same branch.
- `int()` here accepts ASCII digits with an optional sign and surrounding whitespace. Underscores and non-ASCII digits are not modelled.
- Stv.Stv: requires every token of every ballot to be readable by `int()` or tie-marked. The source needs only the tokens that reach the front of a ballot in some round to be readable.
- Manipulation.Manipulate: requires every token of every ballot to be readable, for the same reason.
- Stv.Stv: its `winner` out-parameter starts at 0, which is never returned. In Python, `winner` is unbound until the last round.
- Stv.Tabulate: its own contract states only the number of eliminations. The permutation property is `Stv.TabulatePermutes`.
- Manipulation.Round: its own contract states only that the profile stays readable and keeps its length. What a round does is stated by `Manipulation.BoostRound` and `Manipulation.RunOrder`.
- Records.GetProfile: requires every line after the header to be a record (`Parsable`). The source raises `IndexError` at line 49 for a line with no `:`, and `ValueError` at line 46 when `int()` rejects the count; these error paths are not modelled.
- Ballots.CountVotes: requires every non-empty ballot's first token to be readable (`HeadsReadable`). It does not model the `ValueError` that `int(vote[0])` raises at line 81.
