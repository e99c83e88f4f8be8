/** The Python string operations the tabulation code leans on: `str(n)` for an
    integer, `int(s)` for a ballot token, `s.strip()` and `s.split(sep)`. */
module Text {

  /** Python's `str.isspace`: the code points that `strip()` and `int()` skip. */
  predicate IsSpace(ch: char) {
    var n := ch as int;
    n == 0x20 || 0x09 <= n <= 0x0D || 0x1C <= n <= 0x1F || n == 0x85 || n == 0xA0
    || n == 0x1680 || 0x2000 <= n <= 0x200A || n == 0x2028 || n == 0x2029
    || n == 0x202F || n == 0x205F || n == 0x3000
  }

  predicate AllSpace(s: string) {
    forall i :: 0 <= i < |s| ==> IsSpace(s[i])
  }

  /** `s.lstrip()`: `s` without its leading whitespace. */
  function StripLeft(s: string): string {
    if s != [] && IsSpace(s[0]) then StripLeft(s[1..]) else s
  }

  /** `s.rstrip()`: `s` without its trailing whitespace. */
  function StripRight(s: string): string {
    if s != [] && IsSpace(s[|s| - 1]) then StripRight(s[..|s| - 1]) else s
  }

  /** `s.strip()`: `s` with whitespace removed at both ends. */
  function Strip(s: string): string {
    StripRight(StripLeft(s))
  }

  lemma {:induction false} StripLeftShape(s: string)
    ensures var r := StripLeft(s);
            |r| <= |s| && r == s[|s| - |r|..] && AllSpace(s[..|s| - |r|])
            && (r != [] ==> !IsSpace(r[0]))
  {
    if s != [] && IsSpace(s[0]) {
      StripLeftShape(s[1..]);
      var r := StripLeft(s[1..]);
      var k := |s| - |r|;
      assert r == s[k..];
      forall i | 0 <= i < k
        ensures IsSpace(s[..k][i])
      {
        if i > 0 {
          assert s[..k][i] == s[1..][..k - 1][i - 1];
        }
      }
    }
  }

  lemma {:induction false} StripRightShape(s: string)
    ensures var r := StripRight(s);
            |r| <= |s| && r == s[..|r|] && AllSpace(s[|r|..])
            && (r != [] ==> !IsSpace(r[|r| - 1]))
  {
    if s != [] && IsSpace(s[|s| - 1]) {
      var front := s[..|s| - 1];
      StripRightShape(front);
      var r := StripRight(front);
      assert StripRight(s) == r;
      assert front[..|r|] == s[..|r|];
      assert s[|r|..] == front[|r|..] + [s[|s| - 1]];
      forall i | 0 <= i < |s[|r|..]|
        ensures IsSpace(s[|r|..][i])
      {
        if i < |front[|r|..]| {
          assert s[|r|..][i] == front[|r|..][i];
        }
      }
    } else {
      assert s[|s|..] == [];
    }
  }

  /** `strip()` removes whitespace and only whitespace: what it keeps is the
      infix of `s` that starts at `a`, with whitespace before and after it,
      and it neither starts nor ends with whitespace. */
  lemma StripIsInfix(s: string) returns (a: nat)
    ensures var r := Strip(s);
            && a + |r| <= |s| && r == s[a..a + |r|]
            && AllSpace(s[..a]) && AllSpace(s[a + |r|..])
            && (r != [] ==> !IsSpace(r[0]) && !IsSpace(r[|r| - 1]))
  {
    var left := StripLeft(s);
    StripLeftShape(s);
    StripRightShape(left);
    var r := StripRight(left);
    a := |s| - |left|;
    assert r == s[a..a + |r|];
    assert s[a + |r|..] == left[|r|..];
  }

  /** A string with no whitespace at either end is its own `strip()`. */
  lemma StripUnpadded(s: string)
    requires s != [] ==> !IsSpace(s[0]) && !IsSpace(s[|s| - 1])
    ensures Strip(s) == s
  {
    if s != [] {
      assert StripLeft(s) == s;
    }
  }

  /** `s.split(sep)`: the pieces of `s` between occurrences of `sep`; an
      empty string gives one empty piece, as in Python. */
  function Split(s: string, sep: char): (parts: seq<string>)
    ensures |parts| >= 1
    ensures forall p :: p in parts ==> sep !in p
  {
    if s == [] then [[]]
    else
      var rest := Split(s[1..], sep);
      if s[0] == sep then [[]] + rest
      else [[s[0]] + rest[0]] + rest[1..]
  }

  /** `sep.join(parts)`, the inverse of `Split`. */
  function Join(parts: seq<string>, sep: char): string
    requires |parts| >= 1
  {
    if |parts| == 1 then parts[0] else parts[0] + [sep] + Join(parts[1..], sep)
  }

  /** Joining the pieces of a split gives back the original string. */
  lemma {:induction false} JoinSplit(s: string, sep: char)
    ensures Join(Split(s, sep), sep) == s
  {
    if s != [] {
      var rest := Split(s[1..], sep);
      JoinSplit(s[1..], sep);
      if s[0] != sep {
        if |rest| == 1 {
          assert Split(s, sep) == [[s[0]] + rest[0]];
        } else {
          assert Split(s, sep)[1..] == rest[1..];
        }
      }
    }
  }

  /** Splitting a string that starts with a sep-free prefix `p` glues `p` to
      the first piece and keeps the other pieces. */
  lemma {:induction false} SplitAfterPrefix(p: string, x: string, sep: char)
    requires sep !in p
    ensures Split(p + x, sep) == [p + Split(x, sep)[0]] + Split(x, sep)[1..]
  {
    var sx := Split(x, sep);
    if p == [] {
      assert p + x == x;
      assert p + sx[0] == sx[0];
      assert [sx[0]] + sx[1..] == sx;
    } else {
      SplitAfterPrefix(p[1..], x, sep);
      assert (p + x)[1..] == p[1..] + x;
      var rest := Split(p[1..] + x, sep);
      assert rest[0] == p[1..] + sx[0] && rest[1..] == sx[1..];
      assert (p + x)[0] == p[0] && p[0] != sep;
      assert [p[0]] + (p[1..] + sx[0]) == p + sx[0];
    }
  }

  /** Splitting the join of sep-free pieces gives back the pieces. */
  lemma {:induction false} SplitJoin(parts: seq<string>, sep: char)
    requires |parts| >= 1
    requires forall p :: p in parts ==> sep !in p
    ensures Split(Join(parts, sep), sep) == parts
  {
    if |parts| == 1 {
      SplitAfterPrefix(parts[0], [], sep);
      assert parts[0] + [] == parts[0];
    } else {
      var tail := Join(parts[1..], sep);
      SplitJoin(parts[1..], sep);
      assert parts[0] + [sep] + tail == parts[0] + ([sep] + tail);
      SplitAfterPrefix(parts[0], [sep] + tail, sep);
      assert ([sep] + tail)[1..] == tail;
      assert parts[0] + [] == parts[0];
    }
  }

  predicate IsDigit(ch: char) {
    '0' <= ch <= '9'
  }

  predicate IsDigits(s: string) {
    s != [] && forall i :: 0 <= i < |s| ==> IsDigit(s[i])
  }

  function DigitChar(d: nat): (ch: char)
    requires d < 10
    ensures IsDigit(ch)
  {
    ('0' as int + d) as char
  }

  function DigitValue(ch: char): (d: nat)
    requires IsDigit(ch)
    ensures d < 10
  {
    ch as int - '0' as int
  }

  /** The value of a run of ASCII digits, read most significant first. */
  function DigitsValue(s: string): nat
    requires forall i :: 0 <= i < |s| ==> IsDigit(s[i])
  {
    if s == [] then 0
    else DigitsValue(s[..|s| - 1]) * 10 + DigitValue(s[|s| - 1])
  }

  /** Decimal digits of a natural number, without leading zeros. */
  function NatNumeral(n: nat): (s: string)
    ensures IsDigits(s)
    ensures |s| > 1 ==> s[0] != '0'
  {
    if n < 10 then [DigitChar(n)] else NatNumeral(n / 10) + [DigitChar(n % 10)]
  }

  /** `str(n)` for an integer `n`. */
  function NumeralOf(n: int): (s: string)
    ensures s != [] && s[|s| - 1] != '-'
    ensures forall i :: 0 <= i < |s| ==> IsDigit(s[i]) || s[i] == '-'
  {
    if n < 0 then "-" + NatNumeral(-n) else NatNumeral(n)
  }

  /** The strings `int(s)` accepts here: optional surrounding whitespace, an
      optional sign, then one or more ASCII digits. */
  predicate IsIntLiteral(s: string) {
    var t := Strip(s);
    IsDigits(t) || (|t| > 1 && (t[0] == '-' || t[0] == '+') && IsDigits(t[1..]))
  }

  /** `int(s)` for a string `IsIntLiteral` accepts. */
  function IntValue(s: string): int
    requires IsIntLiteral(s)
  {
    var t := Strip(s);
    if t[0] == '-' then -(DigitsValue(t[1..]) as int)
    else if t[0] == '+' then DigitsValue(t[1..])
    else DigitsValue(t)
  }

  lemma {:induction false} NatNumeralValue(n: nat)
    ensures DigitsValue(NatNumeral(n)) == n
  {
    if n >= 10 {
      var s := NatNumeral(n);
      NatNumeralValue(n / 10);
      assert s[..|s| - 1] == NatNumeral(n / 10);
    }
  }

  /** `int(str(n)) == n`: the numeral of every integer reads back as it. */
  lemma NumeralRoundTrip(n: int)
    ensures IsIntLiteral(NumeralOf(n))
    ensures IntValue(NumeralOf(n)) == n
  {
    var s := NumeralOf(n);
    StripUnpadded(s);
    if n < 0 {
      NatNumeralValue(-n);
      assert s[1..] == NatNumeral(-n);
    } else {
      NatNumeralValue(n);
    }
  }

  /** Distinct integers have distinct numerals. */
  lemma NumeralInjective(m: int, n: int)
    requires NumeralOf(m) == NumeralOf(n)
    ensures m == n
  {
    NumeralRoundTrip(m);
    NumeralRoundTrip(n);
  }

  /** An integer literal contains no brace, so it is never a tie marker. */
  lemma IntLiteralHasNoBrace(s: string)
    requires IsIntLiteral(s)
    ensures '{' !in s && '}' !in s
  {
    var t := Strip(s);
    var a := StripIsInfix(s);
    assert s == s[..a] + t + s[a + |t|..];
    SignedDigitsHaveNoBrace(t);
    SpacesHaveNoBrace(s[..a]);
    SpacesHaveNoBrace(s[a + |t|..]);
  }

  lemma SpacesHaveNoBrace(x: string)
    requires AllSpace(x)
    ensures '{' !in x && '}' !in x
  {
  }

  lemma SignedDigitsHaveNoBrace(t: string)
    requires IsDigits(t) || (|t| > 1 && (t[0] == '-' || t[0] == '+') && IsDigits(t[1..]))
    ensures '{' !in t && '}' !in t
  {
    if !IsDigits(t) {
      assert t == [t[0]] + t[1..];
    }
  }
}
