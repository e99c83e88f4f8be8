/** Ballots and profiles, `count_votes` and `eliminate_candidate`
    (manipulation.py:61-86 and 120-130).

    A ballot is the list of string tokens read from one record of the ballot
    file: a plain numeral names a candidate, and a token holding `{` or `}`
    marks a tied preference. */
module Ballots {
  import opened Text
  import opened Lists

  type Ballot = seq<string>
  type Profile = seq<Ballot>

  /** A tie marker such as `{3` or `5}`. */
  predicate IsTieMarker(t: string) {
    '{' in t || '}' in t
  }

  /** A token `count_votes` can read when it heads a ballot: a tie marker, or
      a string `int()` accepts. Any other head makes `int(vote[0])` raise. */
  predicate Readable(t: string) {
    IsTieMarker(t) || IsIntLiteral(t)
  }

  predicate HeadsReadable(profile: Profile) {
    forall b :: b in profile && b != [] ==> Readable(b[0])
  }

  /** Every token of every ballot is readable, so whichever token comes to the
      front as candidates are eliminated, counting does not raise. */
  predicate WellFormed(profile: Profile) {
    forall b, t :: b in profile && t in b ==> Readable(t)
  }

  lemma WellFormedHeads(profile: Profile)
    requires WellFormed(profile)
    ensures HeadsReadable(profile)
  {
    forall b | b in profile && b != []
      ensures Readable(b[0])
    {
      assert b[0] in b;
    }
  }

  /** The ballot names `candidate` as its plain, untied first choice. */
  predicate HeadsFor(b: Ballot, candidate: int) {
    b != [] && IsIntLiteral(b[0]) && IntValue(b[0]) == candidate
  }

  /** What one ballot adds to `candidate`'s tally, branch for branch as the loop
      body of `count_votes` (lines 66-84). */
  function Contribution(candidate: int, b: Ballot): nat
    requires b != [] ==> Readable(b[0])
  {
    if b == [] then 0
    // The tie branches compare the int `candidate` with a str, which is never
    // equal, so their `+= 0.5` is never reached.
    else if '{' in b[0] then 0
    else if '}' in b[0] then 0
    else if IntValue(b[0]) == candidate then 1 else 0
  }

  /** `count_votes(candidate, profile)`, as a fold over the ballots. */
  function Count(candidate: int, profile: Profile): (n: nat)
    requires HeadsReadable(profile)
    ensures n <= |profile|
  {
    if profile == [] then 0
    else
      var front := profile[..|profile| - 1];
      assert forall b :: b in front ==> b in profile;
      Count(candidate, front) + Contribution(candidate, profile[|profile| - 1])
  }

  /** A ballot adds one vote exactly when it names the candidate as plain first
      choice: tie-marked and empty ballots add nothing. */
  lemma ContributionHeads(candidate: int, b: Ballot)
    requires b != [] ==> Readable(b[0])
    ensures Contribution(candidate, b) == if HeadsFor(b, candidate) then 1 else 0
  {
    if b != [] && IsIntLiteral(b[0]) {
      IntLiteralHasNoBrace(b[0]);
    }
  }

  /** The indices of the ballots that name `candidate` as plain first choice. */
  function HeadedBy(candidate: int, profile: Profile): set<nat> {
    IndicesWhere(profile, b => HeadsFor(b, candidate))
  }

  /** `count_votes` returns exactly the number of ballots whose first token
      is a plain numeral for `candidate`. */
  lemma {:induction false} CountIsHeadedBallots(candidate: int, profile: Profile)
    requires HeadsReadable(profile)
    ensures Count(candidate, profile) == |HeadedBy(candidate, profile)|
  {
    if profile != [] {
      var n := |profile| - 1;
      var front := profile[..n];
      assert forall b :: b in front ==> b in profile;
      CountIsHeadedBallots(candidate, front);
      ContributionHeads(candidate, profile[n]);
      IndicesWhereSnoc(profile, b => HeadsFor(b, candidate));
    }
  }

  /** Counting distributes over concatenation of profiles. */
  lemma {:induction false} CountAppend(candidate: int, p: Profile, q: Profile)
    requires HeadsReadable(p) && HeadsReadable(q)
    ensures HeadsReadable(p + q)
    ensures Count(candidate, p + q) == Count(candidate, p) + Count(candidate, q)
  {
    if q == [] {
      assert p + q == p;
    } else {
      var n := |q| - 1;
      assert (p + q)[..|p + q| - 1] == p + q[..n];
      assert (p + q)[|p + q| - 1] == q[n];
      assert forall b :: b in q[..n] ==> b in q;
      CountAppend(candidate, p, q[..n]);
    }
  }

  /** The count of a one-ballot profile is that ballot's contribution. */
  lemma CountSingle(candidate: int, b: Ballot)
    requires b != [] ==> Readable(b[0])
    ensures HeadsReadable([b])
    ensures Count(candidate, [b]) == Contribution(candidate, b)
  {
    assert [b][..0] == [];
  }

  /** Replacing one ballot changes the count by the difference of the two
      ballots' contributions. */
  lemma CountUpdate(candidate: int, profile: Profile, i: nat, b: Ballot)
    requires HeadsReadable(profile) && i < |profile|
    requires b != [] ==> Readable(b[0])
    ensures HeadsReadable(profile[i := b])
    ensures Count(candidate, profile[i := b]) + Contribution(candidate, profile[i])
            == Count(candidate, profile) + Contribution(candidate, b)
  {
    var pre, post := profile[..i], profile[i + 1..];
    assert profile == pre + [profile[i]] + post;
    assert profile[i := b] == pre + [b] + post;
    assert forall x :: x in pre ==> x in profile;
    assert forall x :: x in post ==> x in profile;
    CountSingle(candidate, profile[i]);
    CountSingle(candidate, b);
    CountAppend(candidate, pre, [profile[i]]);
    CountAppend(candidate, pre + [profile[i]], post);
    CountAppend(candidate, pre, [b]);
    CountAppend(candidate, pre + [b], post);
  }

  /** `count_votes`: the loop of lines 62-86 over a profile held in a list. */
  method CountVotes(candidate: int, profile: array<Ballot>) returns (votes: nat)
    requires HeadsReadable(profile[..])
    ensures votes == Count(candidate, profile[..])
  {
    votes := 0;
    for i := 0 to profile.Length
      invariant HeadsReadable(profile[..i])
      invariant votes == Count(candidate, profile[..i])
    {
      assert profile[..i + 1][..i] == profile[..i];
      assert forall b :: b in profile[..i + 1] ==> b in profile[..];
      var vote := profile[i];
      if vote == [] {
        continue;
      }
      assert vote in profile[..];
      if '{' in vote[0] {
        // `candidate == vote` compares an int with a str: never true.
      } else if '}' in vote[0] {
        // Likewise.
      } else {
        var preference := IntValue(vote[0]);
        if candidate == preference {
          votes := votes + 1;
        }
      }
    }
    assert profile[..profile.Length] == profile[..];
  }

  /** One ballot after `if str(candidate) in vote: vote.remove(str(candidate))`. */
  function EliminateFrom(b: Ballot, candidate: int): Ballot {
    var t := NumeralOf(candidate);
    if t in b then RemoveFirst(b, t) else b
  }

  /** The profile `eliminate_candidate(candidate, profile)` returns. */
  function Eliminate(candidate: int, profile: Profile): Profile {
    seq(|profile|, i requires 0 <= i < |profile| => EliminateFrom(profile[i], candidate))
  }

  /** Every ballot of the profile has been emptied. */
  predicate AllEmpty(profile: Profile) {
    forall i :: 0 <= i < |profile| ==> profile[i] == []
  }

  /** Emptied ballots are well formed and give no candidate a vote. */
  lemma {:induction false} EmptyBallotsCountNothing(candidate: int, profile: Profile)
    requires AllEmpty(profile)
    ensures WellFormed(profile) && HeadsReadable(profile)
    ensures Count(candidate, profile) == 0
  {
    if profile != [] {
      EmptyBallotsCountNothing(candidate, profile[..|profile| - 1]);
    }
  }

  /** Eliminating a candidate leaves emptied ballots as they are. */
  lemma EliminateKeepsEmpty(candidate: int, profile: Profile)
    requires AllEmpty(profile)
    ensures Eliminate(candidate, profile) == profile
  {
  }

  /** `copy.deepcopy` of a profile (manipulation.py:90, 154-155): a fresh
      array with the same ballots. Ballots are values here, so copying the
      array copies them. */
  method CopyProfile(profile: array<Ballot>) returns (work: array<Ballot>)
    ensures fresh(work)
    ensures work[..] == profile[..]
  {
    work := new Ballot[profile.Length];
    for i := 0 to profile.Length
      invariant forall j :: 0 <= j < i ==> work[j] == profile[j]
    {
      work[i] := profile[i];
    }
  }

  /** Eliminating a candidate deletes only the first occurrence of its numeral
      from a ballot; the other tokens keep their relative order, and a ballot
      without the numeral is left as it is. */
  lemma EliminateFromShape(b: Ballot, candidate: int)
    ensures var t := NumeralOf(candidate);
            if t in b then
              var i := FirstIndex(b, t);
              EliminateFrom(b, candidate) == b[..i] + b[i + 1..] && t !in b[..i]
            else EliminateFrom(b, candidate) == b
  {
    var t := NumeralOf(candidate);
    if t in b {
      RemoveFirstAt(b, t);
    }
  }

  /** Tie markers are never removed: a marker such as `{3` is not the numeral
      `3`, so elimination keeps every copy of it. */
  lemma TieMarkersSurvive(b: Ballot, candidate: int, marker: string)
    requires IsTieMarker(marker)
    ensures multiset(EliminateFrom(b, candidate))[marker] == multiset(b)[marker]
  {
    var t := NumeralOf(candidate);
    if t in b {
      RemoveFirstMultiset(b, t);
      assert marker != t;
    }
  }

  lemma EliminateFromSubset(b: Ballot, candidate: int)
    ensures forall x :: x in EliminateFrom(b, candidate) ==> x in b
  {
    var t := NumeralOf(candidate);
    if t in b {
      RemoveFirstSubset(b, t);
    }
  }

  /** Elimination keeps a profile well formed. */
  lemma EliminateWellFormed(candidate: int, profile: Profile)
    requires WellFormed(profile)
    ensures WellFormed(Eliminate(candidate, profile))
  {
    var r := Eliminate(candidate, profile);
    forall b, x | b in r && x in b
      ensures Readable(x)
    {
      var i :| 0 <= i < |r| && r[i] == b;
      EliminateFromSubset(profile[i], candidate);
      assert profile[i] in profile;
    }
  }

  /** A candidate whose numeral appears on no ballot leaves the profile as it is. */
  lemma EliminateAbsent(candidate: int, profile: Profile)
    requires forall b :: b in profile ==> NumeralOf(candidate) !in b
    ensures Eliminate(candidate, profile) == profile
  {
  }

  /** `eliminate_candidate`: lines 120-130. Its `vote.remove` edits the
      caller's ballots in place, and the list it returns holds those same
      ballots, so the model edits the caller's array. */
  method EliminateCandidate(candidate: int, profile: array<Ballot>)
    modifies profile
    ensures profile[..] == Eliminate(candidate, old(profile[..]))
  {
    var t := NumeralOf(candidate);
    for i := 0 to profile.Length
      invariant forall j :: 0 <= j < i ==> profile[j] == EliminateFrom(old(profile[j]), candidate)
      invariant forall j :: i <= j < profile.Length ==> profile[j] == old(profile[j])
    {
      var vote := profile[i];
      if t in vote {
        vote := RemoveFirst(vote, t);
      }
      profile[i] := vote;
    }
  }

  /** A ballot after lines 194-198: `token` removed where it was and put first. */
  function MoveToFront(b: Ballot, token: string): (r: Ballot)
    ensures r != [] && r[0] == token
  {
    if token in b then [token] + RemoveFirst(b, token) else [token] + b
  }

  /** Moving a token to the front neither loses nor duplicates tokens: the
      ballot gains `token` only if it lacked it. */
  lemma MoveToFrontMultiset(b: Ballot, token: string)
    ensures multiset(MoveToFront(b, token))
            == if token in b then multiset(b) else multiset(b) + multiset{token}
  {
    if token in b {
      RemoveFirstMultiset(b, token);
    }
  }

  /** Moving a token to the front adds no token other than itself. */
  lemma MoveToFrontTokens(b: Ballot, token: string)
    ensures forall x :: x in MoveToFront(b, token) ==> x == token || x in b
  {
    if token in b {
      RemoveFirstSubset(b, token);
    }
  }

  /** After its numeral is moved to the front, a ballot votes for candidate
      `j` and for no one else. */
  lemma MoveToFrontVotes(b: Ballot, j: int, candidate: int)
    ensures Readable(MoveToFront(b, NumeralOf(j))[0])
    ensures Contribution(candidate, MoveToFront(b, NumeralOf(j))) == if candidate == j then 1 else 0
  {
    NumeralRoundTrip(j);
    IntLiteralHasNoBrace(NumeralOf(j));
  }

  /** Moving a numeral to the front keeps a well-formed ballot well formed. */
  lemma MoveToFrontWellFormed(profile: Profile, i: nat, j: int)
    requires WellFormed(profile) && i < |profile|
    ensures WellFormed(profile[i := MoveToFront(profile[i], NumeralOf(j))])
  {
    var b := profile[i];
    var t := NumeralOf(j);
    NumeralRoundTrip(j);
    if t in b {
      RemoveFirstSubset(b, t);
    }
    assert profile[i] in profile;
  }

  /** Example: eliminating 2 from `[["1","2"],["2"],[]]` gives
      `[["1"],[],[]]`. */
  lemma EliminateExample()
    ensures Eliminate(2, [["1", "2"], ["2"], []]) == [["1"], [], []]
  {
    assert NumeralOf(2) == "2";
    var p: Profile := [["1", "2"], ["2"], []];
    assert EliminateFrom(p[0], 2) == ["1"];
    assert EliminateFrom(p[1], 2) == [];
  }
}
