/** The coalition-construction routine `manipulate` (manipulation.py:151-225)
    and its set-up `get_profile_with_k_empty` (manipulation.py:133-148).

    `random.sample` is replaced by a `sample` parameter holding the indices
    it would have drawn. The numpy `markings` vector of zeros and ones is an
    array of booleans: `true` where the source holds 1 (a ballot in use),
    `false` where it holds 0 (an emptied ballot still free for the
    coalition). */
module Manipulation {
  import opened Text
  import opened Lists
  import opened Ballots

  datatype Option<T> = None | Some(value: T)

  /** `random.sample(range(n), k)` can return `sample`: `k` distinct indices
      below `n`. */
  predicate IsSample(sample: seq<int>, k: int, n: int) {
    |sample| == k && Distinct(sample) && forall t :: 0 <= t < |sample| ==> 0 <= sample[t] < n
  }

  /** `random.sample` raises `ValueError` for a negative `k` or one larger
      than the population: no sample exists then. */
  lemma NoSampleBeyondPopulation(sample: seq<int>, k: int, n: nat)
    requires k < 0 || k > n
    ensures !IsSample(sample, k, n)
  {
    if IsSample(sample, k, n) {
      DistinctBelow(sample, n);
    }
  }

  /** The indices of the ballots still free for the coalition (markings 0). */
  function Free(markings: seq<bool>): set<nat> {
    set t: nat | t < |markings| && !markings[t]
  }

  /** The profile after lines 138-140: the sampled ballots replaced by `[]`. */
  function Emptied(profile: Profile, sample: seq<int>): (r: Profile)
    ensures |r| == |profile|
  {
    seq(|profile|, t requires 0 <= t < |profile| => if t in sample then [] else profile[t])
  }

  /** `get_profile_with_k_empty`: lines 133-148. The caller's ballots at the
      sampled indices are emptied in place, and the markings are 0 exactly
      there. */
  method GetProfileWithKEmpty(profile: array<Ballot>, k: int, sample: seq<int>) returns (markings: array<bool>)
    requires IsSample(sample, k, profile.Length)
    modifies profile
    ensures fresh(markings) && markings.Length == profile.Length
    ensures forall t :: 0 <= t < markings.Length ==> (markings[t] <==> t !in sample)
    ensures profile[..] == Emptied(old(profile[..]), sample)
  {
    markings := new bool[profile.Length](_ => true);
    for r := 0 to |sample|
      invariant forall t :: 0 <= t < markings.Length ==> (markings[t] <==> t !in sample[..r])
      invariant forall t :: 0 <= t < profile.Length ==>
                  profile[t] == if t in sample[..r] then [] else old(profile[t])
    {
      var vote := sample[r];
      assert sample[..r + 1] == sample[..r] + [vote];
      profile[vote] := [];
      markings[vote] := false;
    }
    assert sample[..|sample|] == sample;
  }

  /** After `get_profile_with_k_empty`, exactly the `k` sampled ballots are
      free. */
  lemma FreeAfterSample(markings: seq<bool>, k: int, sample: seq<int>)
    requires IsSample(sample, k, |markings|)
    requires forall t :: 0 <= t < |markings| ==> (markings[t] <==> t !in sample)
    ensures Free(markings) == Elements(sample)
    ensures |Free(markings)| == k
  {
    forall x | x in Elements(sample)
      ensures x in Free(markings)
    {
      var r :| 0 <= r < |sample| && sample[r] == x;
    }
    DistinctElements(sample);
  }

  /** The lowest free index (`np.where(markings == 0)[0][0]`), or the length
      of `markings` when none is free. */
  function LowestFree(markings: seq<bool>): (f: nat)
    ensures f <= |markings|
    ensures forall t :: 0 <= t < f ==> markings[t]
    ensures f < |markings| ==> !markings[f]
  {
    if markings == [] || !markings[0] then 0 else LowestFree(markings[1..]) + 1
  }

  /** `0 in markings` followed by `np.where(markings == 0)[0][0]`. */
  method FirstFree(markings: array<bool>) returns (index: nat)
    ensures index == LowestFree(markings[..])
  {
    index := 0;
    while index < markings.Length && markings[index]
      invariant index <= markings.Length
      invariant forall t :: 0 <= t < index ==> markings[t]
    {
      index := index + 1;
    }
    LowestFreeUnique(markings[..], index);
  }

  /** The two properties of `LowestFree` single it out. */
  lemma {:induction false} LowestFreeUnique(markings: seq<bool>, f: nat)
    requires f <= |markings|
    requires forall t :: 0 <= t < f ==> markings[t]
    requires f < |markings| ==> !markings[f]
    ensures f == LowestFree(markings)
  {
    if markings != [] && markings[0] {
      LowestFreeUnique(markings[1..], f - 1);
    }
  }

  /** Marking a free ballot as used removes exactly that index from the free
      ones, so their number strictly decreases. */
  lemma FreeShrinks(markings: seq<bool>, f: nat)
    requires f < |markings| && !markings[f]
    ensures Free(markings[f := true]) == Free(markings) - {f}
    ensures |Free(markings[f := true])| == |Free(markings)| - 1
  {
    assert Free(markings) == Free(markings[f := true]) + {f};
  }

  /** One pass of the `while` body of lines 186-203: if some ballot is free,
      the lowest free one is marked used and `str(j)` is moved to its front;
      otherwise nothing changes and the caller stops. */
  method ConsumeFree(j: int, work: array<Ballot>, markings: array<bool>) returns (consumed: bool)
    requires work.Length == markings.Length
    modifies work, markings
    ensures var f := LowestFree(old(markings[..]));
            if f == markings.Length then
              !consumed && work[..] == old(work[..]) && markings[..] == old(markings[..])
            else
              && consumed
              && markings[..] == old(markings[..])[f := true]
              && work[..] == old(work[..])[f := MoveToFront(old(work[f]), NumeralOf(j))]
  {
    var index := FirstFree(markings);
    if index < markings.Length {
      markings[index] := true;
      var current := work[index];
      var t := NumeralOf(j);
      if t in current {
        current := RemoveFirst(current, t);
        current := [t] + current;
      } else {
        current := [t] + current;
      }
      work[index] := current;
      consumed := true;
    } else {
      consumed := false;
    }
  }

  /** Markings once every free ballot below `f` has been used. */
  function UsedBelow(markings: seq<bool>, f: nat): (r: seq<bool>)
    ensures |r| == |markings|
  {
    seq(|markings|, t requires 0 <= t < |markings| => markings[t] || t < f)
  }

  /** Ballots once every free ballot below `f` has had `token` moved to its
      front. */
  function FilledBelow(work: Profile, markings: seq<bool>, f: nat, token: string): (r: Profile)
    requires |work| == |markings|
    ensures |r| == |work|
  {
    seq(|work|, t requires 0 <= t < |work| =>
      if !markings[t] && t < f then MoveToFront(work[t], token) else work[t])
  }

  /** Every free ballot with `token` moved to its front. */
  function FillFree(work: Profile, markings: seq<bool>, token: string): (r: Profile)
    requires |work| == |markings|
    ensures |r| == |work|
    ensures forall t :: 0 <= t < |r| ==> r[t] == if markings[t] then work[t] else MoveToFront(work[t], token)
  {
    FilledBelow(work, markings, |work|, token)
  }

  /** Every ballot in use. */
  function AllUsed(n: nat): (r: seq<bool>)
    ensures |r| == n && Free(r) == {}
  {
    seq(n, _ => true)
  }

  /** One consumption step, seen on the whole state: the lowest free ballot
      at or above `f` is used next, so the used and filled prefixes grow past
      it; when none is left the state is the fully consumed one. */
  lemma ConsumeStep(work: Profile, markings: seq<bool>, f: nat, token: string)
    requires |work| == |markings| && f <= |markings|
    ensures var g := LowestFree(UsedBelow(markings, f));
            && f <= g
            && (g < |markings| ==>
                  && UsedBelow(markings, f)[g := true] == UsedBelow(markings, g + 1)
                  && FilledBelow(work, markings, f, token)[g := MoveToFront(FilledBelow(work, markings, f, token)[g], token)]
                     == FilledBelow(work, markings, g + 1, token))
            && (g == |markings| ==>
                  && UsedBelow(markings, f) == AllUsed(|markings|)
                  && FilledBelow(work, markings, f, token) == FillFree(work, markings, token))
  {
    var used := UsedBelow(markings, f);
    var g := LowestFree(used);
    assert forall t :: 0 <= t < f ==> used[t];
    if g < |markings| {
      var filled := FilledBelow(work, markings, f, token);
      var next := FilledBelow(work, markings, g + 1, token);
      forall t | 0 <= t < |work|
        ensures filled[g := MoveToFront(filled[g], token)][t] == next[t]
      {
        assert t < g ==> used[t];
      }
    }
    if g == |markings| {
      forall t | 0 <= t < |markings| && t >= f
        ensures markings[t]
      {
        assert used[t];
      }
    }
  }

  /** The `while` loop of lines 186-203 for one `j`. `votes` is the tally taken
      at the start of round `i` and never refreshed, so the loop either does
      not start, or consumes every free ballot and then fails. */
  method PushCandidate(votes: seq<nat>, i: int, j: int, work: array<Ballot>, markings: array<bool>)
    returns (works: bool)
    requires 1 <= i <= |votes| && 1 <= j <= |votes|
    requires work.Length == markings.Length
    modifies work, markings
    ensures if votes[j - 1] < votes[i - 1] then
              && !works
              && work[..] == FillFree(old(work[..]), old(markings[..]), NumeralOf(j))
              && markings[..] == AllUsed(markings.Length)
            else
              works && work[..] == old(work[..]) && markings[..] == old(markings[..])
  {
    works := true;
    ghost var work0, markings0 := work[..], markings[..];
    ghost var f: nat := 0;
    var token := NumeralOf(j);
    assert UsedBelow(markings0, 0) == markings0;
    assert FilledBelow(work0, markings0, 0, token) == work0;
    while votes[j - 1] < votes[i - 1]
      invariant f <= markings.Length
      invariant markings[..] == UsedBelow(markings0, f)
      invariant work[..] == FilledBelow(work0, markings0, f, token)
      invariant works
      invariant !(votes[j - 1] < votes[i - 1]) ==> f == 0
      decreases markings.Length - f
    {
      ConsumeStep(work0, markings0, f, token);
      ghost var g := LowestFree(markings[..]);
      var consumed := ConsumeFree(j, work, markings);
      if !consumed {
        works := false;
        break;
      }
      f := g + 1;
    }
  }

  /** The first position `d >= j` whose stale tally is strictly below that of
      position `i`: the first `j` whose `while` loop runs. */
  function FirstDeficit(votes: seq<nat>, i: int, j: nat): (d: Option<nat>)
    requires 1 <= i <= |votes| && 1 <= j
    ensures d.Some? ==> && j <= d.value <= |votes| && votes[d.value - 1] < votes[i - 1]
                        && forall e :: j - 1 <= e < d.value - 1 ==> votes[i - 1] <= votes[e]
    ensures d.None? ==> forall e :: j - 1 <= e < |votes| ==> votes[i - 1] <= votes[e]
    decreases |votes| + 1 - j
  {
    if j > |votes| then None
    else if votes[j - 1] < votes[i - 1] then Some(j)
    else FirstDeficit(votes, i, j + 1)
  }

  /** The state `manipulate` carries between rounds: the working profile, the
      markings and `order_works`. */
  datatype State = State(work: Profile, markings: seq<bool>, works: bool)

  /** The `for j` loop of lines 182-203 from a state where `order_works`
      holds: nothing changes unless some `j` has a deficit; then the first
      such `j` is pushed onto every free ballot and the order fails. */
  function Boosted(votes: seq<nat>, i: int, work: Profile, markings: seq<bool>): State
    requires 1 <= i <= |votes| && |work| == |markings|
  {
    match FirstDeficit(votes, i, 2)
    case None => State(work, markings, true)
    case Some(d) => State(FillFree(work, markings, NumeralOf(d)), AllUsed(|markings|), false)
  }

  /** The `for j` loop of lines 182-203 over a tally. */
  method BoostRound(votes: seq<nat>, i: int, work: array<Ballot>, markings: array<bool>) returns (works: bool)
    requires 1 <= i <= |votes| && work.Length == markings.Length
    modifies work, markings
    ensures State(work[..], markings[..], works) == Boosted(votes, i, old(work[..]), old(markings[..]))
  {
    works := true;
    var j := 2;
    while j <= |votes|
      invariant 2 <= j
      invariant works ==> && FirstDeficit(votes, i, 2) == FirstDeficit(votes, i, j)
                          && work[..] == old(work[..]) && markings[..] == old(markings[..])
      invariant !works ==> State(work[..], markings[..], works) == Boosted(votes, i, old(work[..]), old(markings[..]))
    {
      if !works {
        break;
      }
      works := PushCandidate(votes, i, j, work, markings);
      j := j + 1;
    }
  }

  /** The tally of line 180: `[count_votes(cand, profile) for cand in order]`. */
  function Tally(order: seq<int>, profile: Profile): (votes: seq<nat>)
    requires HeadsReadable(profile)
    ensures |votes| == |order|
  {
    seq(|order|, t requires 0 <= t < |order| => Count(order[t], profile))
  }

  method TallyOrder(order: seq<int>, work: array<Ballot>) returns (votes: seq<nat>)
    requires HeadsReadable(work[..])
    ensures votes == Tally(order, work[..])
  {
    votes := [];
    for t := 0 to |order|
      invariant votes == Tally(order[..t], work[..])
    {
      var v := CountVotes(order[t], work);
      votes := votes + [v];
    }
    assert order[..|order|] == order;
  }

  /** Round `i` of lines 176-215: tally, push, then eliminate candidate
      number `i` (the position, not `order[i - 1]`). */
  function Round(order: seq<int>, i: int, s: State): (r: State)
    requires 1 <= i <= |order| && WellFormed(s.work) && |s.markings| == |s.work|
    ensures WellFormed(r.work) && |r.markings| == |r.work| == |s.work|
  {
    WellFormedHeads(s.work);
    var b := Boosted(Tally(order, s.work), i, s.work, s.markings);
    FillFreeWellFormed(s.work, s.markings, Tally(order, s.work), i);
    EliminateWellFormed(i, b.work);
    State(Eliminate(i, b.work), b.markings, b.works)
  }

  /** Boosting keeps the working profile well formed. */
  lemma FillFreeWellFormed(work: Profile, markings: seq<bool>, votes: seq<nat>, i: int)
    requires WellFormed(work) && |markings| == |work| && 1 <= i <= |votes|
    ensures var b := Boosted(votes, i, work, markings);
            WellFormed(b.work) && |b.markings| == |b.work| == |work|
  {
    var d := FirstDeficit(votes, i, 2);
    if d.Some? {
      var token := NumeralOf(d.value);
      var filled := FillFree(work, markings, token);
      NumeralRoundTrip(d.value);
      forall b, x | b in filled && x in b
        ensures Readable(x)
      {
        var t :| 0 <= t < |filled| && filled[t] == b;
        assert work[t] in work;
        if !markings[t] {
          MoveToFrontTokens(work[t], token);
        }
      }
    }
  }

  /** Rounds `i`, `i + 1`, ... up to `len(order) - 1`, stopping at the first
      round that starts with `order_works` false (lines 176-178). */
  function Rounds(order: seq<int>, i: int, s: State): (r: State)
    requires 1 <= i && WellFormed(s.work) && |s.markings| == |s.work|
    ensures WellFormed(r.work) && |r.markings| == |r.work| == |s.work|
    decreases |order| - i
  {
    if i >= |order| || !s.works then s else Rounds(order, i + 1, Round(order, i, s))
  }

  /** Lines 166-215: the rounds over the working profile and the markings. */
  method RunOrder(order: seq<int>, work: array<Ballot>, markings: array<bool>) returns (orderWorks: bool)
    requires WellFormed(work[..]) && work.Length == markings.Length
    modifies work, markings
    ensures State(work[..], markings[..], orderWorks)
            == Rounds(order, 1, State(old(work[..]), old(markings[..]), true))
  {
    orderWorks := true;
    var i := 1;
    while i < |order|
      invariant 1 <= i && WellFormed(work[..]) && work.Length == markings.Length
      invariant Rounds(order, 1, State(old(work[..]), old(markings[..]), true))
                == Rounds(order, i, State(work[..], markings[..], orderWorks))
    {
      if !orderWorks {
        break;
      }
      ghost var s := State(work[..], markings[..], orderWorks);
      WellFormedHeads(work[..]);
      var votes := TallyOrder(order, work);
      orderWorks := BoostRound(votes, i, work, markings);
      EliminateCandidate(i, work);
      assert State(work[..], markings[..], orderWorks) == Round(order, i, s);
      i := i + 1;
    }
  }

  /** When the order works, no free ballot was used; when it fails, every
      free ballot was used. */
  lemma {:induction false} RoundsConsumption(order: seq<int>, i: int, s: State)
    requires 1 <= i && WellFormed(s.work) && |s.markings| == |s.work|
    ensures var r := Rounds(order, i, s);
            && (s.works && r.works ==> r.markings == s.markings)
            && (s.works && !r.works ==> Free(r.markings) == {})
            && (!s.works ==> r == s)
    decreases |order| - i
  {
    if i < |order| && s.works {
      RoundsConsumption(order, i + 1, Round(order, i, s));
    }
  }

  /** `list(reversed([str(c) for c in order]))` (lines 219-220): the order's
      numerals from last to first. */
  function Coalition(order: seq<int>): (b: Ballot)
    ensures |b| == |order|
    ensures forall t :: 0 <= t < |b| ==> b[t] == NumeralOf(order[|order| - 1 - t])
  {
    if order == [] then [] else Coalition(order[1..]) + [NumeralOf(order[0])]
  }

  /** The profile `manipulate` returns: the coalition ballot at every sampled
      index, the input ballot everywhere else. */
  function WithCoalition(profile: Profile, sample: seq<int>, order: seq<int>): (r: Profile)
    ensures |r| == |profile|
  {
    seq(|profile|, t requires 0 <= t < |profile| => if t in sample then Coalition(order) else profile[t])
  }

  /** Lines 158-162: the indices whose marking is 0, in increasing order. */
  method Unmarked(markings: array<bool>) returns (unmarked: seq<nat>)
    ensures Increasing(unmarked)
    ensures forall t :: t in unmarked <==> 0 <= t < markings.Length && !markings[t]
  {
    unmarked := [];
    for i := 0 to markings.Length
      invariant Increasing(unmarked)
      invariant forall t :: t in unmarked <==> 0 <= t < i && !markings[t]
    {
      if !markings[i] {
        assert forall r :: 0 <= r < |unmarked| ==> unmarked[r] in unmarked;
        unmarked := unmarked + [i];
      }
    }
  }

  /** `manipulate`: lines 151-225. The caller's ballots at the sampled indices
      are emptied (through `get_profile_with_k_empty`), and the result holds
      the coalition ballot at every sampled index and the input ballot
      everywhere else, whether or not the order worked. */
  method Manipulate(order: seq<int>, profile: array<Ballot>, k: int, sample: seq<int>)
    returns (result: array<Ballot>)
    requires WellFormed(profile[..]) && IsSample(sample, k, profile.Length)
    modifies profile
    ensures fresh(result)
    ensures profile[..] == Emptied(old(profile[..]), sample)
    ensures result[..] == WithCoalition(old(profile[..]), sample, order)
  {
    ghost var input := profile[..];
    var markings := GetProfileWithKEmpty(profile, k, sample);
    EmptiedWellFormed(input, sample);
    var work := CopyProfile(profile);
    var original := CopyProfile(profile);
    var unmarked := Unmarked(markings);
    var orderWorks := RunOrder(order, work, markings);
    PlaceCoalition(original, unmarked, order);
    result := original;
  }

  /** Lines 218-220: the coalition ballot written at each listed index. */
  method PlaceCoalition(profile: array<Ballot>, unmarked: seq<nat>, order: seq<int>)
    modifies profile
    ensures forall t :: 0 <= t < profile.Length ==>
              profile[t] == if t in unmarked then Coalition(order) else old(profile[t])
  {
    for r := 0 to |unmarked|
      invariant forall t :: 0 <= t < profile.Length ==>
                  profile[t] == if t in unmarked[..r] then Coalition(order) else old(profile[t])
    {
      assert unmarked[..r + 1] == unmarked[..r] + [unmarked[r]];
      if unmarked[r] < profile.Length {
        profile[unmarked[r]] := Coalition(order);
      }
    }
    assert unmarked[..|unmarked|] == unmarked;
  }

  lemma EmptiedWellFormed(profile: Profile, sample: seq<int>)
    requires WellFormed(profile)
    ensures WellFormed(Emptied(profile, sample))
  {
    var r := Emptied(profile, sample);
    forall b, x | b in r && x in b
      ensures Readable(x)
    {
      var t :| 0 <= t < |r| && r[t] == b;
      assert profile[t] in profile;
    }
  }

  /** The coalition ballot names the order's last candidate first (the
      source reverses the order, so the intended winner leads). */
  lemma CoalitionHead(order: seq<int>)
    requires order != []
    ensures Coalition(order)[0] == NumeralOf(order[|order| - 1])
    ensures Readable(Coalition(order)[0])
  {
    NumeralRoundTrip(order[|order| - 1]);
  }

  /** The ballots that head for `candidate` after the coalition is placed:
      those that did before, plus every sampled index when the coalition
      ballot heads for `candidate`. No emptied ballot heads for anyone. */
  lemma CoalitionHeadedBy(profile: Profile, sample: seq<int>, order: seq<int>, candidate: int)
    requires forall t :: 0 <= t < |sample| ==> 0 <= sample[t] < |profile|
    ensures var before := HeadedBy(candidate, Emptied(profile, sample));
            && before * Elements(sample) == {}
            && HeadedBy(candidate, WithCoalition(profile, sample, order))
               == before + if HeadsFor(Coalition(order), candidate) then Elements(sample) else {}
  {
    var emptied := Emptied(profile, sample);
    var manipulated := WithCoalition(profile, sample, order);
    var before := HeadedBy(candidate, emptied);
    var after := HeadedBy(candidate, manipulated);
    var extra := if HeadsFor(Coalition(order), candidate) then Elements(sample) else {};
    forall t | t in after
      ensures t in before + extra
    {
      if t !in sample {
        assert manipulated[t] == emptied[t];
      }
    }
    forall t | t in before + extra
      ensures t in after
    {
      if t in before {
        assert t !in sample;
        assert manipulated[t] == emptied[t];
      } else {
        var r :| 0 <= r < |sample| && sample[r] == t;
      }
    }
  }

  /** The manipulated profile can be tallied: every first token is a tie
      marker, an integer literal or the coalition's numeral. */
  lemma CoalitionReadable(profile: Profile, sample: seq<int>, order: seq<int>)
    requires WellFormed(profile) && order != []
    ensures HeadsReadable(Emptied(profile, sample))
    ensures HeadsReadable(WithCoalition(profile, sample, order))
  {
    var emptied := Emptied(profile, sample);
    var manipulated := WithCoalition(profile, sample, order);
    CoalitionHead(order);
    EmptiedWellFormed(profile, sample);
    WellFormedHeads(emptied);
    forall x | x in manipulated && x != []
      ensures Readable(x[0])
    {
      var t :| 0 <= t < |manipulated| && manipulated[t] == x;
      if t !in sample {
        assert emptied[t] == x;
        assert x in emptied;
      }
    }
  }

  /** The `k` coalition ballots add exactly `k` first preferences to the
      order's last candidate and none to anyone else. */
  lemma CoalitionVotes(profile: Profile, k: int, sample: seq<int>, order: seq<int>, candidate: int)
    requires WellFormed(profile) && IsSample(sample, k, |profile|) && order != []
    ensures HeadsReadable(Emptied(profile, sample))
    ensures HeadsReadable(WithCoalition(profile, sample, order))
    ensures Count(candidate, WithCoalition(profile, sample, order))
            == Count(candidate, Emptied(profile, sample)) + if candidate == order[|order| - 1] then k else 0
  {
    CoalitionReadable(profile, sample, order);
    CountIsHeadedBallots(candidate, Emptied(profile, sample));
    CountIsHeadedBallots(candidate, WithCoalition(profile, sample, order));
    CoalitionHeadedBy(profile, sample, order, candidate);
    DistinctElements(sample);
    CoalitionHeadsFor(order, candidate);
  }

  /** The coalition ballot heads for exactly the order's last candidate. */
  lemma CoalitionHeadsFor(order: seq<int>, candidate: int)
    requires order != []
    ensures HeadsFor(Coalition(order), candidate) <==> candidate == order[|order| - 1]
  {
    NumeralRoundTrip(order[|order| - 1]);
  }
}
