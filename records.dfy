/** The record expansion inside `get_profile` (manipulation.py:42-53): after
    a fixed header, each line `n:a,b,c` stands for `n` voters who all cast
    the ballot `["a", "b", "c"]`. The lines are taken as already read from
    the file and right-stripped (line 39). */
module Records {
  import opened Text
  import opened Ballots

  /** The number of header lines skipped by `lines[23:]`. */
  const HeaderLines := 23

  /** A line the loop body can process: `line.split(':')` has a second piece
      (line 49) and its first piece is an integer literal (line 46). */
  predicate IsRecord(line: string) {
    var parts := Split(line, ':');
    |parts| >= 2 && IsIntLiteral(parts[0])
  }

  /** `range(int(line.split(':')[0]))` has this many elements. */
  function Copies(line: string): (n: nat)
    requires IsRecord(line)
  {
    var number := IntValue(Split(line, ':')[0]);
    if number < 0 then 0 else number
  }

  /** The ballot of a record: `line.split(':')[1].strip().split(',')`. */
  function Preferences(line: string): Ballot
    requires IsRecord(line)
  {
    Split(Strip(Split(line, ':')[1]), ',')
  }

  /** `n` copies of one ballot. */
  function Repeat(b: Ballot, n: nat): (r: Profile)
    ensures |r| == n
    ensures forall t :: 0 <= t < n ==> r[t] == b
  {
    if n == 0 then [] else Repeat(b, n - 1) + [b]
  }

  /** The ballots the records contribute, in file order. */
  function Expand(records: seq<string>): Profile
    requires forall t :: 0 <= t < |records| ==> IsRecord(records[t])
  {
    if records == [] then []
    else Repeat(Preferences(records[0]), Copies(records[0])) + Expand(records[1..])
  }

  /** Every line after the header is a record. */
  predicate Parsable(lines: seq<string>) {
    forall t :: HeaderLines <= t < |lines| ==> IsRecord(lines[t])
  }

  /** The profile `get_profile` returns for the given file lines. */
  function ProfileFromLines(lines: seq<string>): Profile
    requires Parsable(lines)
  {
    if |lines| <= HeaderLines then [] else Expand(lines[HeaderLines..])
  }

  /** Lines 42-53: skip the header, then append `number` copies of each
      record's ballot. */
  method GetProfile(lines: seq<string>) returns (profile: seq<Ballot>)
    requires Parsable(lines)
    ensures profile == ProfileFromLines(lines)
  {
    profile := [];
    var records := if |lines| <= HeaderLines then [] else lines[HeaderLines..];
    for r := 0 to |records|
      invariant profile == Expand(records[..r])
    {
      var line := records[r];
      var number := IntValue(Split(line, ':')[0]);
      var vote := Strip(Split(line, ':')[1]);
      ghost var done := profile;
      var i := 0;
      while i < number
        invariant 0 <= i && (i <= number || i == 0)
        invariant profile == done + Repeat(Split(vote, ','), i)
      {
        profile := profile + [Split(vote, ',')];
        i := i + 1;
      }
      assert i == Copies(line) && Split(vote, ',') == Preferences(line);
      ExpandSnoc(records, r);
    }
    assert records[..|records|] == records;
  }

  /** One more record appends its copies. */
  lemma ExpandSnoc(records: seq<string>, r: nat)
    requires r < |records| && forall t :: 0 <= t < |records| ==> IsRecord(records[t])
    ensures Expand(records[..r + 1]) == Expand(records[..r]) + Repeat(Preferences(records[r]), Copies(records[r]))
  {
    assert records[..r + 1] == records[..r] + [records[r]];
    ExpandAppend(records[..r], [records[r]]);
    assert [records[r]][1..] == [];
  }

  /** Expansion distributes over concatenation of record lists. */
  lemma {:induction false} ExpandAppend(a: seq<string>, b: seq<string>)
    requires forall t :: 0 <= t < |a| ==> IsRecord(a[t])
    requires forall t :: 0 <= t < |b| ==> IsRecord(b[t])
    ensures forall t :: 0 <= t < |a + b| ==> IsRecord((a + b)[t])
    ensures Expand(a + b) == Expand(a) + Expand(b)
  {
    if a != [] {
      assert (a + b)[1..] == a[1..] + b;
      ExpandAppend(a[1..], b);
    } else {
      assert a + b == b;
    }
  }

  /** The sum of the records' counts, negative counts adding nothing. */
  function TotalCopies(records: seq<string>): nat
    requires forall t :: 0 <= t < |records| ==> IsRecord(records[t])
  {
    if records == [] then 0 else Copies(records[0]) + TotalCopies(records[1..])
  }

  /** The profile has one ballot per voter counted in the records. */
  lemma {:induction false} ExpandLength(records: seq<string>)
    requires forall t :: 0 <= t < |records| ==> IsRecord(records[t])
    ensures |Expand(records)| == TotalCopies(records)
  {
    if records != [] {
      ExpandLength(records[1..]);
    }
  }

  /** Whatever the header says, it does not reach the profile. */
  lemma HeaderIgnored(header: seq<string>, records: seq<string>)
    requires |header| == HeaderLines
    requires forall t :: 0 <= t < |records| ==> IsRecord(records[t])
    ensures Parsable(header + records)
    ensures ProfileFromLines(header + records) == Expand(records)
  {
    assert (header + records)[HeaderLines..] == records;
  }

  /** The record line for `n` voters casting ballot `b`: `n:` then the
      ballot's tokens joined by commas. */
  function RecordLine(n: int, b: Ballot): string
    requires |b| >= 1
  {
    NumeralOf(n) + [':'] + Join(b, ',')
  }

  /** A token that can be written into a record line and read back: no
      separator and no whitespace. */
  predicate Plain(token: string) {
    forall t :: 0 <= t < |token| ==> token[t] != ',' && token[t] != ':' && !IsSpace(token[t])
  }

  /** Reading back a record line gives `n` copies (none for negative `n`)
      of exactly the ballot written. */
  lemma RecordRoundTrip(n: int, b: Ballot)
    requires |b| >= 1 && forall t :: 0 <= t < |b| ==> Plain(b[t])
    ensures IsRecord(RecordLine(n, b))
    ensures Expand([RecordLine(n, b)]) == Repeat(b, if n < 0 then 0 else n)
  {
    var line := RecordLine(n, b);
    var num := NumeralOf(n);
    var body := Join(b, ',');
    JoinPlain(b);
    assert forall t :: 0 <= t < |num| ==> num[t] != ':';
    assert ':' !in num;
    assert forall t :: 0 <= t < |body| ==> body[t] != ':';
    assert ':' !in body;
    SplitJoin([num, body], ':');
    assert Join([num, body], ':') == line;
    SplitJoin(b, ',');
    StripUnpadded(body);
    NumeralRoundTrip(n);
    assert [line][1..] == [];
  }

  /** The join of plain tokens by commas has no colon and no whitespace, and
      none of its tokens holds a comma. */
  lemma {:induction false} JoinPlain(b: Ballot)
    requires |b| >= 1 && forall t :: 0 <= t < |b| ==> Plain(b[t])
    ensures forall p :: p in b ==> ',' !in p
    ensures forall t :: 0 <= t < |Join(b, ',')| ==> Join(b, ',')[t] != ':' && !IsSpace(Join(b, ',')[t])
  {
    forall p | p in b
      ensures ',' !in p
    {
      var r :| 0 <= r < |b| && b[r] == p;
      assert Plain(b[r]);
      assert forall t :: 0 <= t < |p| ==> p[t] != ',';
    }
    if |b| > 1 {
      JoinPlain(b[1..]);
      var rest := Join(b[1..], ',');
      assert Plain(b[0]);
      var s := b[0] + [','] + rest;
      forall t | 0 <= t < |s|
        ensures s[t] != ':' && !IsSpace(s[t])
      {
        if t > |b[0]| {
          assert s[t] == rest[t - |b[0]| - 1];
          assert rest[t - |b[0]| - 1] != ':' && !IsSpace(rest[t - |b[0]| - 1]);
        } else if t < |b[0]| {
          assert s[t] == b[0][t];
          assert b[0][t] != ':' && !IsSpace(b[0][t]);
        } else {
          assert s[t] == ',';
          assert !IsSpace(',');
        }
      }
    } else {
      assert Plain(b[0]);
    }
  }
}
