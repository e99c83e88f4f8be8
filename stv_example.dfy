/** A worked election for `STV` (manipulation.py:89-117): six voters over
    candidates 1 to 3, with the other eight candidates on no ballot. */
module StvExample {
  import opened Text
  import opened Lists
  import opened Ballots
  import opened Stv

  function Ballot123(): Ballot { ["1", "2", "3"] }
  function Ballot213(): Ballot { ["2", "1", "3"] }
  function Ballot312(): Ballot { ["3", "1", "2"] }

  /** Three voters ranking 1 > 2 > 3, two ranking 2 > 1 > 3 and one ranking
      3 > 1 > 2. */
  function Election(): Profile {
    [Ballot123(), Ballot123(), Ballot123(), Ballot213(), Ballot213(), Ballot312()]
  }

  /** The election once candidate 3 is eliminated. */
  function ElectionWithout3(): Profile {
    [["1", "2"], ["1", "2"], ["1", "2"], ["2", "1"], ["2", "1"], ["1", "2"]]
  }

  /** The numerals of 1, 2 and 3 are the election's tokens. */
  lemma SmallNumerals()
    ensures NumeralOf(1) == "1" && NumeralOf(2) == "2" && NumeralOf(3) == "3"
    ensures Readable("1") && Readable("2") && Readable("3")
  {
    NumeralRoundTrip(1);
    NumeralRoundTrip(2);
    NumeralRoundTrip(3);
  }

  /** A ballot drawn from "1", "2" and "3" is readable throughout and holds
      no other candidate's numeral. */
  lemma SmallBallot(b: Ballot, c: int)
    requires forall t :: t in b ==> t == "1" || t == "2" || t == "3"
    ensures forall t :: t in b ==> Readable(t)
    ensures c < 1 || c > 3 ==> NumeralOf(c) !in b
  {
    SmallNumerals();
    if NumeralOf(c) in b {
      if NumeralOf(c) == "1" {
        NumeralInjective(c, 1);
      } else if NumeralOf(c) == "2" {
        NumeralInjective(c, 2);
      } else {
        NumeralInjective(c, 3);
      }
    }
  }

  /** Every token of the election, before and after candidate 3 leaves, is
      one of "1", "2" and "3". */
  lemma ElectionTokens()
    ensures forall b, t :: b in Election() && t in b ==> t == "1" || t == "2" || t == "3"
    ensures forall b, t :: b in ElectionWithout3() && t in b ==> t == "1" || t == "2"
  {
  }

  lemma ElectionReadable()
    ensures WellFormed(Election()) && HeadsReadable(Election())
    ensures WellFormed(ElectionWithout3()) && HeadsReadable(ElectionWithout3())
  {
    ElectionTokens();
    SmallNumerals();
    WellFormedHeads(Election());
    WellFormedHeads(ElectionWithout3());
  }

  /** Six ballots, three headed by `x`, two by `y` and the last by `z`. */
  lemma CountSix(c: int, first: Ballot, second: Ballot, third: Ballot)
    requires first != [] ==> Readable(first[0])
    requires second != [] ==> Readable(second[0])
    requires third != [] ==> Readable(third[0])
    ensures HeadsReadable([first, first, first, second, second, third])
    ensures Count(c, [first, first, first, second, second, third])
            == 3 * Contribution(c, first) + 2 * Contribution(c, second) + Contribution(c, third)
  {
    CountThree(c, first, first, first);
    CountThree(c, second, second, third);
    CountAppend(c, [first, first, first], [second, second, third]);
    assert [first, first, first] + [second, second, third] == [first, first, first, second, second, third];
  }

  /** Three ballots add their three contributions. */
  lemma CountThree(c: int, a: Ballot, b: Ballot, d: Ballot)
    requires a != [] ==> Readable(a[0])
    requires b != [] ==> Readable(b[0])
    requires d != [] ==> Readable(d[0])
    ensures HeadsReadable([a, b, d])
    ensures Count(c, [a, b, d]) == Contribution(c, a) + Contribution(c, b) + Contribution(c, d)
  {
    CountSingle(c, a);
    CountSingle(c, b);
    CountSingle(c, d);
    CountAppend(c, [a], [b]);
    assert [a] + [b] == [a, b];
    CountAppend(c, [a, b], [d]);
    assert [a, b] + [d] == [a, b, d];
  }

  /** First preferences: 3 for candidate 1, 2 for candidate 2, 1 for
      candidate 3 and none for anyone else. */
  lemma ElectionCount(c: int)
    ensures HeadsReadable(Election())
    ensures Count(c, Election()) == if c == 1 then 3 else if c == 2 then 2 else if c == 3 then 1 else 0
  {
    SmallNumerals();
    ContributionHeads(c, Ballot123());
    ContributionHeads(c, Ballot213());
    ContributionHeads(c, Ballot312());
    CountSix(c, Ballot123(), Ballot213(), Ballot312());
  }

  /** Once candidate 3 is gone: 4 for candidate 1, 2 for candidate 2 and none
      for anyone else. */
  lemma ElectionWithout3Count(c: int)
    ensures HeadsReadable(ElectionWithout3())
    ensures Count(c, ElectionWithout3()) == if c == 1 then 4 else if c == 2 then 2 else 0
  {
    SmallNumerals();
    var b12: Ballot := ["1", "2"];
    var b21: Ballot := ["2", "1"];
    ContributionHeads(c, b12);
    ContributionHeads(c, b21);
    CountSix(c, b12, b21, b12);
  }

  /** Candidate 3 has the fewest first preferences among 1, 2 and 3. */
  lemma ElectionLoser()
    ensures HeadsReadable(Election()) && Increasing([1, 2, 3])
    ensures Loser(Election(), [1, 2, 3]) == 3
  {
    ElectionCount(1);
    ElectionCount(2);
    ElectionCount(3);
    LastOfThree(Election());
  }

  /** Among 1, 2 and 3, candidate 3 loses when it has strictly fewer first
      preferences than both others. */
  lemma LastOfThree(profile: Profile)
    requires HeadsReadable(profile)
    requires Count(3, profile) < Count(1, profile) && Count(3, profile) < Count(2, profile)
    ensures Increasing([1, 2, 3]) && Loser(profile, [1, 2, 3]) == 3
  {
    assert [1, 2, 3][1..] == [2, 3] && [2, 3][1..] == [3];
  }

  /** Eliminating candidate 3 from the election. */
  lemma ElectionEliminate3()
    ensures Eliminate(3, Election()) == ElectionWithout3()
  {
    SmallNumerals();
    var e := Election();
    assert EliminateFrom(e[0], 3) == ["1", "2"];
    assert EliminateFrom(e[3], 3) == ["2", "1"];
    assert EliminateFrom(e[5], 3) == ["1", "2"];
  }

  /** One round from a known loser and a known profile after it. */
  lemma RoundOf(profile: Profile, remaining: seq<int>, loser: int, after: Profile, rest: seq<int>)
    requires WellFormed(profile) && |remaining| >= 2 && Increasing(remaining)
    requires HeadsReadable(profile) && Loser(profile, remaining) == loser
    requires Eliminate(loser, profile) == after && RemoveFirst(remaining, loser) == rest
    ensures WellFormed(after) && rest != [] && Increasing(rest)
    ensures Tabulate(profile, remaining) == Outcome([loser] + Tabulate(after, rest).removed, Tabulate(after, rest).winner)
  {
    TabulateStep(profile, remaining);
  }

  /** The first round eliminates candidate 3. */
  lemma ElectionRound1()
    ensures WellFormed(Election()) && WellFormed(ElectionWithout3()) && Increasing([1, 2, 3])
    ensures Tabulate(Election(), [1, 2, 3])
            == Outcome([3] + Tabulate(ElectionWithout3(), [1, 2]).removed, Tabulate(ElectionWithout3(), [1, 2]).winner)
  {
    ElectionReadable();
    ElectionLoser();
    ElectionEliminate3();
    assert RemoveFirst([1, 2, 3], 3) == [1, 2];
    RoundOf(Election(), [1, 2, 3], 3, ElectionWithout3(), [1, 2]);
  }

  /** The second round eliminates candidate 2, and 1 wins. */
  lemma ElectionRound2()
    ensures WellFormed(ElectionWithout3())
    ensures Tabulate(ElectionWithout3(), [1, 2]) == Outcome([2], 1)
  {
    ElectionReadable();
    var e3 := ElectionWithout3();
    ElectionWithout3Count(1);
    ElectionWithout3Count(2);
    assert [1, 2][1..] == [2];
    assert Loser(e3, [1, 2]) == 2;
    assert RemoveFirst([1, 2], 2) == [1];
    RoundOf(e3, [1, 2], 2, Eliminate(2, e3), [1]);
  }

  /** The race among 1, 2 and 3: candidate 3 goes first, then 2, and 1 wins. */
  lemma ElectionAmongThree()
    ensures WellFormed(Election()) && Increasing([1, 2, 3])
    ensures Tabulate(Election(), [1, 2, 3]) == Outcome([3, 2], 1)
  {
    ElectionRound1();
    ElectionRound2();
  }

  /** Candidates 4 to 11 have no votes. */
  lemma ElectionAbsentVotes()
    ensures HeadsReadable(Election())
    ensures forall c :: c in Range(4, 12) ==> Count(c, Election()) == 0
  {
    ElectionCount(0);
    forall c | c in Range(4, 12)
      ensures Count(c, Election()) == 0
    {
      ElectionCount(c);
    }
  }

  /** Candidates 4 to 11 appear on no ballot. */
  lemma ElectionAbsentNumerals()
    ensures forall c, b :: c in Range(4, 12) && b in Election() ==> NumeralOf(c) !in b
  {
    ElectionTokens();
    forall c, b | c in Range(4, 12) && b in Election()
      ensures NumeralOf(c) !in b
    {
      SmallBallot(b, c);
    }
  }

  /** `STV` on the election: candidates 4 to 11 go first in increasing
      order, then 3, then 2, and 1 wins. */
  lemma ElectionOutcome()
    ensures WellFormed(Election())
    ensures StvOutcome(Election()) == Outcome(Range(4, 12) + [3, 2], 1)
  {
    assert Candidates == [1, 2, 3] + Range(4, 12);
    CandidatesIncreasing();
    ElectionAmongThree();
    ElectionAbsentVotes();
    ElectionAbsentNumerals();
    ElectionCount(1);
    ElectionCount(2);
    ElectionCount(3);
    AbsentGoFirst(Election(), [1, 2, 3], Range(4, 12));
  }
}
