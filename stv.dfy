/** The STV tabulation `STV` (manipulation.py:89-117): each round tallies the
    remaining candidates, eliminates the one with fewest first preferences
    (the lowest id on ties), and stops when one candidate is left. */
module Stv {
  import opened Text
  import opened Lists
  import opened Ballots

  /** The hard-coded candidates, `list(range(1, 12))`. */
  const Candidates: seq<int> := Range(1, 12)

  lemma CandidatesIncreasing()
    ensures Increasing(Candidates)
    ensures forall c :: c in Candidates <==> 1 <= c <= 11
  {
    forall c | 1 <= c <= 11
      ensures c in Candidates
    {
      assert Candidates[c - 1] == c;
    }
  }

  lemma CandidatesSplit()
    ensures Candidates[..10] == Range(1, 11) && Candidates[10] == 11
  {
  }

  /** An entry of the numpy tally: a vote count, or `inf` for a candidate
      already eliminated. */
  datatype Score = Finite(votes: nat) | Infinite

  /** `a < b` on tally entries. */
  predicate Below(a: Score, b: Score) {
    a.Finite? && (b.Infinite? || a.votes < b.votes)
  }

  /** `np.argmin(tally)`: the first index holding the least entry. */
  method ArgMin(tally: array<Score>) returns (index: nat)
    requires tally.Length > 0
    ensures index < tally.Length
    ensures forall t :: 0 <= t < tally.Length ==> !Below(tally[t], tally[index])
    ensures forall t :: 0 <= t < index ==> Below(tally[index], tally[t])
  {
    index := 0;
    for t := 1 to tally.Length
      invariant index < t
      invariant forall u :: 0 <= u < t ==> !Below(tally[u], tally[index])
      invariant forall u :: 0 <= u < index ==> Below(tally[index], tally[u])
    {
      if Below(tally[t], tally[index]) {
        index := t;
      }
    }
  }

  /** The candidate a round eliminates: among the remaining candidates, the
      lowest id with the fewest first preferences. */
  function Loser(profile: Profile, remaining: seq<int>): (loser: int)
    requires HeadsReadable(profile) && remaining != [] && Increasing(remaining)
    ensures loser in remaining
    ensures forall c :: c in remaining ==> Count(loser, profile) <= Count(c, profile)
    ensures forall c :: c in remaining && c < loser ==> Count(loser, profile) < Count(c, profile)
  {
    if |remaining| == 1 then remaining[0]
    else
      var other := Loser(profile, remaining[1..]);
      if Count(remaining[0], profile) <= Count(other, profile) then remaining[0] else other
  }

  /** The two properties of `Loser` single it out. */
  lemma LoserUnique(profile: Profile, remaining: seq<int>, loser: int)
    requires HeadsReadable(profile) && remaining != [] && Increasing(remaining)
    requires loser in remaining
    requires forall c :: c in remaining ==> Count(loser, profile) <= Count(c, profile)
    requires forall c :: c in remaining && c < loser ==> Count(loser, profile) < Count(c, profile)
    ensures loser == Loser(profile, remaining)
  {
  }

  /** The outcome of a tabulation: the candidates in the order they were
      eliminated (the source's `removed`), and the winner. */
  datatype Outcome = Outcome(removed: seq<int>, winner: int)

  /** The rounds of STV from a profile and the candidates still in the race. */
  function Tabulate(profile: Profile, remaining: seq<int>): (o: Outcome)
    requires WellFormed(profile) && remaining != [] && Increasing(remaining)
    ensures |o.removed| == |remaining| - 1
    decreases |remaining|
  {
    if |remaining| == 1 then Outcome([], remaining[0])
    else
      WellFormedHeads(profile);
      var loser := Loser(profile, remaining);
      EliminateWellFormed(loser, profile);
      RemoveFirstIncreasing(remaining, loser);
      var rest := Tabulate(Eliminate(loser, profile), RemoveFirst(remaining, loser));
      Outcome([loser] + rest.removed, rest.winner)
  }

  /** Every remaining candidate is eliminated once or wins: the eliminated
      candidates and the winner are a permutation of `remaining`. */
  lemma {:induction false} TabulatePermutes(profile: Profile, remaining: seq<int>)
    requires WellFormed(profile) && remaining != [] && Increasing(remaining)
    ensures var o := Tabulate(profile, remaining);
            multiset(o.removed + [o.winner]) == multiset(remaining)
    decreases |remaining|
  {
    if |remaining| > 1 {
      TabulateStep(profile, remaining);
      var loser := Loser(profile, remaining);
      var rest := Tabulate(Eliminate(loser, profile), RemoveFirst(remaining, loser));
      TabulatePermutes(Eliminate(loser, profile), RemoveFirst(remaining, loser));
      RemoveFirstThenPrepend(remaining, loser, rest.removed, rest.winner);
    }
  }

  /** The outcome of `STV(profile)`. */
  function StvOutcome(profile: Profile): Outcome
    requires WellFormed(profile)
  {
    CandidatesIncreasing();
    Tabulate(profile, Candidates)
  }

  /** A permutation of 1..11 split into ten eliminated candidates and a
      winner: no candidate is eliminated twice, and the winner is exactly the
      candidate never eliminated. */
  lemma EliminationOrderShape(removed: seq<int>, winner: int)
    requires multiset(removed + [winner]) == multiset(Candidates)
    ensures |removed| == 10
    ensures Distinct(removed)
    ensures 1 <= winner <= 11
    ensures forall c :: 1 <= c <= 11 ==> (c !in removed <==> c == winner)
  {
    CandidatesIncreasing();
    PermutationSplitLast(removed, winner, Candidates);
  }

  /** STV runs exactly ten rounds, each eliminating a different candidate,
      and the winner is the one candidate of 1..11 never eliminated. */
  lemma StvEliminatesAllButWinner(profile: Profile)
    requires WellFormed(profile)
    ensures multiset(StvOutcome(profile).removed + [StvOutcome(profile).winner]) == multiset(Candidates)
    ensures |StvOutcome(profile).removed| == 10
    ensures Distinct(StvOutcome(profile).removed)
    ensures 1 <= StvOutcome(profile).winner <= 11
    ensures forall c :: 1 <= c <= 11 ==> (c !in StvOutcome(profile).removed <==> c == StvOutcome(profile).winner)
  {
    var o := StvOutcome(profile);
    CandidatesIncreasing();
    TabulatePermutes(profile, Candidates);
    EliminationOrderShape(o.removed, o.winner);
  }

  /** With every ballot empty all counts are zero, so a round eliminates the
      lowest remaining id. */
  lemma EmptyBallotsLoser(profile: Profile, remaining: seq<int>)
    requires AllEmpty(profile) && remaining != [] && Increasing(remaining)
    ensures HeadsReadable(profile)
    ensures Loser(profile, remaining) == remaining[0]
  {
    EmptyBallotsCountNothing(0, profile);
    forall c
      ensures Count(c, profile) == 0
    {
      EmptyBallotsCountNothing(c, profile);
    }
  }

  /** One round over empty ballots: the lowest id goes, the ballots stay. */
  lemma EmptyBallotsStep(profile: Profile, remaining: seq<int>)
    requires AllEmpty(profile) && |remaining| >= 2 && Increasing(remaining)
    ensures WellFormed(profile) && Increasing(remaining[1..])
    ensures Tabulate(profile, remaining)
            == Outcome([remaining[0]] + Tabulate(profile, remaining[1..]).removed,
                       Tabulate(profile, remaining[1..]).winner)
  {
    EmptyBallotsCountNothing(0, profile);
    TabulateStep(profile, remaining);
    EmptyBallotsLoser(profile, remaining);
    EliminateKeepsEmpty(remaining[0], profile);
    assert RemoveFirst(remaining, remaining[0]) == remaining[1..];
  }

  /** A profile whose ballots are all empty (or that has no ballots) gives
      every candidate zero votes, so candidates go in increasing order and
      the last one wins. */
  lemma {:induction false} EmptyBallotsEliminateInOrder(profile: Profile, remaining: seq<int>)
    requires AllEmpty(profile) && remaining != [] && Increasing(remaining)
    ensures WellFormed(profile)
    ensures Tabulate(profile, remaining)
            == Outcome(remaining[..|remaining| - 1], remaining[|remaining| - 1])
    decreases |remaining|
  {
    EmptyBallotsCountNothing(0, profile);
    if |remaining| > 1 {
      EmptyBallotsStep(profile, remaining);
      EmptyBallotsEliminateInOrder(profile, remaining[1..]);
      PrependFirst(Tabulate(profile, remaining), Tabulate(profile, remaining[1..]), remaining);
    }
  }

  /** An outcome that eliminates `remaining[0]` and then proceeds through the
      rest of `remaining` in order eliminates all of `remaining` in order. */
  lemma PrependFirst(o: Outcome, rest: Outcome, remaining: seq<int>)
    requires |remaining| >= 2
    requires o == Outcome([remaining[0]] + rest.removed, rest.winner)
    requires rest == Outcome(remaining[1..][..|remaining| - 2], remaining[1..][|remaining| - 2])
    ensures o == Outcome(remaining[..|remaining| - 1], remaining[|remaining| - 1])
  {
    assert [remaining[0]] + remaining[1..][..|remaining| - 2] == remaining[..|remaining| - 1];
  }

  /** With no usable ballot, STV eliminates 1..10 in order and elects 11. */
  lemma StvOfEmptyBallots(profile: Profile)
    requires AllEmpty(profile)
    ensures WellFormed(profile)
    ensures StvOutcome(profile) == Outcome(Range(1, 11), 11)
  {
    CandidatesIncreasing();
    EmptyBallotsEliminateInOrder(profile, Candidates);
    CandidatesSplit();
  }

  /** Candidates no ballot mentions and no ballot counts for are eliminated
      first, in increasing order, before any candidate with votes; they
      leave the ballots untouched. */
  lemma {:induction false} AbsentGoFirst(profile: Profile, present: seq<int>, absent: seq<int>)
    requires WellFormed(profile) && present != [] && Increasing(present + absent)
    requires HeadsReadable(profile)
    requires forall c :: c in present ==> Count(c, profile) > 0
    requires forall c :: c in absent ==> Count(c, profile) == 0
    requires forall c, b :: c in absent && b in profile ==> NumeralOf(c) !in b
    ensures Increasing(present)
    ensures Tabulate(profile, present + absent)
            == Outcome(absent + Tabulate(profile, present).removed, Tabulate(profile, present).winner)
    decreases |absent|
  {
    var remaining := present + absent;
    assert Increasing(present) by {
      forall i, j | 0 <= i < j < |present|
        ensures present[i] < present[j]
      {
        assert remaining[i] == present[i] && remaining[j] == present[j];
      }
    }
    if absent == [] {
      assert remaining == present;
    } else {
      var first := absent[0];
      AbsentRemoved(present, absent);
      var next := Tabulate(profile, present + absent[1..]);
      var rest := Tabulate(profile, present);
      assert Tabulate(profile, remaining) == Outcome([first] + next.removed, next.winner) by {
        AbsentLoser(profile, present, absent);
        TabulateStep(profile, remaining);
        EliminateAbsent(first, profile);
      }
      assert next == Outcome(absent[1..] + rest.removed, rest.winner) by {
        AbsentGoFirst(profile, present, absent[1..]);
      }
      PrependRemoved(Tabulate(profile, remaining), next, rest, absent);
    }
  }

  /** Eliminating `absent[0]` and then the rest of `absent` before `rest`
      eliminates all of `absent` before `rest`. */
  lemma PrependRemoved(o: Outcome, next: Outcome, rest: Outcome, absent: seq<int>)
    requires absent != []
    requires o == Outcome([absent[0]] + next.removed, next.winner)
    requires next == Outcome(absent[1..] + rest.removed, rest.winner)
    ensures o == Outcome(absent + rest.removed, rest.winner)
  {
    assert [absent[0]] + (absent[1..] + rest.removed) == absent + rest.removed;
  }

  /** The lowest absent candidate is the round's loser. */
  lemma AbsentLoser(profile: Profile, present: seq<int>, absent: seq<int>)
    requires HeadsReadable(profile) && present != [] && absent != [] && Increasing(present + absent)
    requires forall c :: c in present ==> Count(c, profile) > 0
    requires forall c :: c in absent ==> Count(c, profile) == 0
    ensures Loser(profile, present + absent) == absent[0]
  {
    var remaining := present + absent;
    var first := absent[0];
    assert remaining[|present|] == first;
    forall c | c in remaining && c < first
      ensures Count(first, profile) < Count(c, profile)
    {
      var i :| 0 <= i < |remaining| && remaining[i] == c;
      assert forall j :: |present| < j < |remaining| ==> first < remaining[j];
      assert i < |present|;
      assert remaining[i] == present[i];
    }
    LoserUnique(profile, remaining, first);
  }

  /** Removing the lowest absent candidate leaves the others in order. */
  lemma AbsentRemoved(present: seq<int>, absent: seq<int>)
    requires absent != [] && Increasing(present + absent)
    ensures absent[0] in present + absent
    ensures RemoveFirst(present + absent, absent[0]) == present + absent[1..]
    ensures Increasing(present + absent[1..])
  {
    var remaining := present + absent;
    assert remaining[|present|] == absent[0];
    assert absent[0] !in present by {
      forall i | 0 <= i < |present|
        ensures present[i] != absent[0]
      {
        assert remaining[i] == present[i];
      }
    }
    RemoveFirstAt(remaining, absent[0]);
    assert FirstIndex(remaining, absent[0]) == |present| by {
      assert remaining[..|present|] == present;
    }
    assert remaining[..|present|] + remaining[|present| + 1..] == present + absent[1..];
  }

  /** Entry `c - 1` of the tally holds `c`'s count while `c` remains and `inf`
      once it is eliminated (lines 96-104). */
  ghost predicate TallyOf(tally: seq<Score>, profile: Profile, remaining: seq<int>)
    requires HeadsReadable(profile)
  {
    |tally| == 11
    && forall c :: 1 <= c <= 11 ==>
         tally[c - 1] == if c in remaining then Finite(Count(c, profile)) else Infinite
  }

  /** `np.argmin` over that tally, plus one, is the round's `Loser`. */
  lemma ArgMinIsLoser(tally: seq<Score>, profile: Profile, remaining: seq<int>, index: nat)
    requires HeadsReadable(profile) && remaining != [] && Increasing(remaining)
    requires forall c :: c in remaining ==> 1 <= c <= 11
    requires TallyOf(tally, profile, remaining)
    requires index < |tally|
    requires forall t :: 0 <= t < |tally| ==> !Below(tally[t], tally[index])
    requires forall t :: 0 <= t < index ==> Below(tally[index], tally[t])
    ensures index + 1 == Loser(profile, remaining)
  {
    var some := remaining[0];
    assert some in remaining;
    assert !Below(tally[some - 1], tally[index]);
    var loser := index + 1;
    assert loser in remaining;
    forall c | c in remaining
      ensures Count(loser, profile) <= Count(c, profile)
    {
      assert !Below(tally[c - 1], tally[index]);
    }
    forall c | c in remaining && c < loser
      ensures Count(loser, profile) < Count(c, profile)
    {
      assert Below(tally[index], tally[c - 1]);
    }
    LoserUnique(profile, remaining, loser);
  }

  /** One round of `Tabulate` unfolded: the round's loser goes first, and the
      rest is the tabulation of the profile without it. */
  lemma TabulateStep(profile: Profile, remaining: seq<int>)
    requires WellFormed(profile) && |remaining| >= 2 && Increasing(remaining)
    ensures HeadsReadable(profile)
    ensures var loser := Loser(profile, remaining);
            && loser in remaining
            && WellFormed(Eliminate(loser, profile))
            && Increasing(RemoveFirst(remaining, loser))
            && var rest := Tabulate(Eliminate(loser, profile), RemoveFirst(remaining, loser));
               Tabulate(profile, remaining) == Outcome([loser] + rest.removed, rest.winner)
  {
    WellFormedHeads(profile);
    var loser := Loser(profile, remaining);
    EliminateWellFormed(loser, profile);
    RemoveFirstIncreasing(remaining, loser);
  }

  /** Lines 96-100: `np.zeros(11)` with `inf` at every eliminated candidate. */
  method MarkRemoved(removed: seq<int>) returns (tally: array<Score>)
    requires forall c :: c in removed ==> 1 <= c <= 11
    ensures fresh(tally) && tally.Length == 11
    ensures forall c :: 1 <= c <= 11 ==> tally[c - 1] == if c in removed then Infinite else Finite(0)
  {
    tally := new Score[11](_ => Finite(0));
    for r := 0 to |removed|
      invariant forall c :: 1 <= c <= 11 ==> tally[c - 1] == if c in removed[..r] then Infinite else Finite(0)
    {
      assert removed[..r + 1] == removed[..r] + [removed[r]];
      assert removed[r] in removed;
      tally[removed[r] - 1] := Infinite;
    }
    assert removed[..|removed|] == removed;
  }

  /** The tally part-way through lines 103-104: `counted` have their counts,
      the other eliminated candidates `inf`, everyone else still 0. */
  ghost function PartialTally(profile: Profile, counted: seq<int>, removed: seq<int>): (tally: seq<Score>)
    requires HeadsReadable(profile)
    ensures |tally| == 11
  {
    seq(11, i requires 0 <= i < 11 =>
      if i + 1 in counted then Finite(Count(i + 1, profile))
      else if i + 1 in removed then Infinite else Finite(0))
  }

  /** Counting one more candidate updates only its own entry. */
  lemma PartialTallyStep(profile: Profile, counted: seq<int>, c: int, removed: seq<int>)
    requires HeadsReadable(profile) && 1 <= c <= 11
    ensures PartialTally(profile, counted + [c], removed)
            == PartialTally(profile, counted, removed)[c - 1 := Finite(Count(c, profile))]
  {
  }

  /** Once every remaining candidate is counted, and the rest are eliminated,
      the partial tally is the round's tally. */
  lemma PartialTallyDone(profile: Profile, candidates: seq<int>, removed: seq<int>)
    requires HeadsReadable(profile)
    requires forall c :: 1 <= c <= 11 ==> c in candidates || c in removed
    ensures TallyOf(PartialTally(profile, candidates, removed), profile, candidates)
  {
  }

  /** Lines 96-104: a fresh tally with `inf` for every eliminated candidate and
      the current count for every remaining one. */
  method TallyRound(work: array<Ballot>, candidates: seq<int>, removed: seq<int>) returns (tally: array<Score>)
    requires HeadsReadable(work[..])
    requires forall c :: c in candidates ==> 1 <= c <= 11
    requires forall c :: c in removed ==> 1 <= c <= 11
    requires forall c :: 1 <= c <= 11 ==> c in candidates || c in removed
    ensures fresh(tally)
    ensures TallyOf(tally[..], work[..], candidates)
  {
    tally := MarkRemoved(removed);
    assert tally[..] == PartialTally(work[..], [], removed) by {
      forall i | 0 <= i < 11
        ensures tally[..][i] == PartialTally(work[..], [], removed)[i]
      {
        assert tally[i] == tally[(i + 1) - 1];
      }
    }
    for t := 0 to |candidates|
      invariant tally[..] == PartialTally(work[..], candidates[..t], removed)
    {
      var c := candidates[t];
      assert candidates[..t + 1] == candidates[..t] + [c];
      assert c in candidates;
      PartialTallyStep(work[..], candidates[..t], c, removed);
      var votes := CountVotes(c, work);
      tally[c - 1] := Finite(votes);
    }
    assert candidates[..|candidates|] == candidates;
    PartialTallyDone(work[..], candidates, removed);
  }

  /** The state between two rounds of `STV`: the working profile, the
      candidates still in the race and those already removed account for
      every id 1..11, and finishing the tabulation from here yields
      `outcome`. */
  ghost predicate Between(outcome: Outcome, work: Profile, candidates: seq<int>, removed: seq<int>) {
    && WellFormed(work) && candidates != [] && Increasing(candidates)
    && (forall c :: c in candidates ==> 1 <= c <= 11)
    && (forall c :: c in removed ==> 1 <= c <= 11)
    && (forall c :: 1 <= c <= 11 ==> c in candidates || c in removed)
    && outcome == Outcome(removed + Tabulate(work, candidates).removed, Tabulate(work, candidates).winner)
  }

  /** Before the first round nothing is removed and all of 1..11 remain. */
  lemma BetweenInitially(profile: Profile)
    requires WellFormed(profile)
    ensures Between(StvOutcome(profile), profile, Candidates, [])
  {
    CandidatesIncreasing();
    assert [] + Tabulate(profile, Candidates).removed == Tabulate(profile, Candidates).removed;
  }

  /** A round that eliminates the loser keeps the state consistent. */
  lemma BetweenAdvances(outcome: Outcome, work: Profile, candidates: seq<int>, removed: seq<int>)
    requires Between(outcome, work, candidates, removed) && |candidates| >= 2
    ensures HeadsReadable(work)
    ensures var loser := Loser(work, candidates);
            && loser in candidates
            && Between(outcome, Eliminate(loser, work), RemoveFirst(candidates, loser), removed + [loser])
  {
    TabulateStep(work, candidates);
    var loser := Loser(work, candidates);
    RemoveFirstKeepsOthers(candidates, loser);
    RemoveFirstSubset(candidates, loser);
    OutcomeAdvances(outcome, removed, Tabulate(work, candidates), loser,
                    Tabulate(Eliminate(loser, work), RemoveFirst(candidates, loser)));
  }

  /** Moving the round's loser from the tabulation still to come onto the
      removed list leaves the overall outcome unchanged. */
  lemma OutcomeAdvances(outcome: Outcome, removed: seq<int>, step: Outcome, loser: int, rest: Outcome)
    requires step == Outcome([loser] + rest.removed, rest.winner)
    requires outcome == Outcome(removed + step.removed, step.winner)
    ensures outcome == Outcome((removed + [loser]) + rest.removed, rest.winner)
  {
    assert removed + ([loser] + rest.removed) == (removed + [loser]) + rest.removed;
  }

  /** With one candidate left, it is the winner. */
  lemma BetweenFinished(outcome: Outcome, work: Profile, candidates: seq<int>, removed: seq<int>)
    requires Between(outcome, work, candidates, removed) && |candidates| == 1
    ensures outcome.winner == candidates[0]
  {
  }

  /** One pass of the `while` body up to the elimination (lines 96-108): the
      tally, `np.argmin`, and `eliminate_candidate` on the working copy. */
  method Round(work: array<Ballot>, candidates: seq<int>, removed: seq<int>) returns (loser: int)
    requires WellFormed(work[..]) && candidates != [] && Increasing(candidates)
    requires forall c :: c in candidates ==> 1 <= c <= 11
    requires forall c :: c in removed ==> 1 <= c <= 11
    requires forall c :: 1 <= c <= 11 ==> c in candidates || c in removed
    modifies work
    ensures HeadsReadable(old(work[..]))
    ensures loser == Loser(old(work[..]), candidates)
    ensures work[..] == Eliminate(loser, old(work[..]))
  {
    WellFormedHeads(work[..]);
    var tally := TallyRound(work, candidates, removed);
    var index := ArgMin(tally);
    ArgMinIsLoser(tally[..], work[..], candidates, index);
    loser := index + 1;
    EliminateCandidate(loser, work);
  }

  /** `STV`: lines 89-117. The caller's profile is not modified (the source
      deep-copies it at line 90), and the winner is the tabulation's. */
  method Stv(profile: array<Ballot>) returns (winner: int)
    requires WellFormed(profile[..])
    ensures winner == StvOutcome(profile[..]).winner
  {
    var work := CopyProfile(profile);
    winner := 0;  // never returned: the first pass that leaves one candidate sets it
    ghost var outcome := StvOutcome(profile[..]);
    BetweenInitially(profile[..]);
    var noWinner := true;
    var candidates := Candidates;
    var removed: seq<int> := [];
    while noWinner
      invariant Between(outcome, work[..], candidates, removed)
      invariant noWinner ==> |candidates| >= 2
      invariant !noWinner ==> winner == outcome.winner
      decreases |candidates|
    {
      ghost var before := work[..];
      BetweenAdvances(outcome, before, candidates, removed);
      var loser := Round(work, candidates, removed);
      candidates := RemoveFirst(candidates, loser);
      removed := removed + [loser];
      if |candidates| == 1 {
        BetweenFinished(outcome, work[..], candidates, removed);
        winner := candidates[0];
        noWinner := false;
      }
    }
  }
}
