/** Decimal formatting and parsing of 64-bit unsigned numbers, with the limits of
    Go's strconv.FormatUint and strconv.ParseUint(_, 10, 64). */
module Decimal {
  import opened Outcomes

  const MAX_UINT64: nat := 0xFFFF_FFFF_FFFF_FFFF

  predicate IsDigit(c: char) { '0' <= c <= '9' }

  function DigitChar(d: nat): char
    requires d < 10
  {
    '0' + d as char
  }

  function DigitValue(c: char): nat
    requires IsDigit(c)
  {
    (c - '0') as nat
  }

  function FormatUint(n: nat): (s: string)
    ensures |s| > 0
    ensures forall c :: c in s ==> IsDigit(c)
  {
    if n < 10 then [DigitChar(n)] else FormatUint(n / 10) + [DigitChar(n % 10)]
  }

  /** The value of a digit string, without the 64-bit bound. */
  function DigitsValue(s: string): nat
    requires forall c :: c in s ==> IsDigit(c)
  {
    if s == "" then 0
    else DigitsValue(s[..|s| - 1]) * 10 + DigitValue(s[|s| - 1])
  }

  function ParseUint(s: string): Option<nat> {
    if s == "" || exists c :: c in s && !IsDigit(c) then None
    else if DigitsValue(s) > MAX_UINT64 then None
    else Some(DigitsValue(s))
  }

  lemma {:induction false} ValueOfFormat(n: nat)
    ensures DigitsValue(FormatUint(n)) == n
  {
    var s := FormatUint(n);
    if n < 10 {
      assert s[..|s| - 1] == "";
    } else {
      ValueOfFormat(n / 10);
      assert s[..|s| - 1] == FormatUint(n / 10);
    }
  }

  function Power10(n: nat): nat {
    if n == 0 then 1 else 10 * Power10(n - 1)
  }

  lemma TenTimes(d: int, p: nat)
    ensures d * (10 * p) == 10 * (d * p)
  {
  }

  /** Each digit counts by its place, the last as it is. */
  lemma {:induction false} ValueByPlace(c: char, s: string)
    requires IsDigit(c) && forall d :: d in s ==> IsDigit(d)
    ensures DigitsValue([c] + s) == (c as int - 48) * Power10(|s|) + DigitsValue(s)
    decreases |s|
  {
    var t := [c] + s;
    if s == "" {
      assert t[..0] == "";
    } else {
      var init := s[..|s| - 1];
      assert t[..|t| - 1] == [c] + init;
      ValueByPlace(c, init);
      TenTimes(c as int - 48, Power10(|init|));
    }
  }

  /** Numbers are written without leading zeros. */
  lemma {:induction false} NoLeadingZero(n: nat)
    ensures |FormatUint(n)| > 1 ==> FormatUint(n)[0] != '0'
    ensures FormatUint(n)[0] == '0' <==> n == 0
  {
    if n >= 10 {
      NoLeadingZero(n / 10);
      assert FormatUint(n)[0] == FormatUint(n / 10)[0];
    }
  }

  lemma ParseAfterFormat(n: nat)
    requires n <= MAX_UINT64
    ensures ParseUint(FormatUint(n)) == Some(n)
  {
    ValueOfFormat(n);
  }

  lemma FormatInjective(m: nat, n: nat)
    requires FormatUint(m) == FormatUint(n)
    ensures m == n
  {
    ValueOfFormat(m);
    ValueOfFormat(n);
  }

  lemma FirstMark(digits: string, rest: string, mark: char)
    requires (forall c :: c in digits ==> IsDigit(c)) && !IsDigit(mark)
    ensures var t := digits + [mark] + rest; t[|digits|] == mark && forall i :: 0 <= i < |digits| ==> t[i] != mark
  {
    assert forall i :: 0 <= i < |digits| ==> digits[i] in digits;
  }

  /** A number ends where its mark is. */
  lemma NumberThenMark(m: nat, r: string, n: nat, s: string, mark: char)
    requires !IsDigit(mark) && FormatUint(m) + [mark] + r == FormatUint(n) + [mark] + s
    ensures m == n && r == s
  {
    hide FormatUint;
    var d, e, t := FormatUint(m), FormatUint(n), FormatUint(m) + [mark] + r;
    FirstMark(d, r, mark);
    FirstMark(e, s, mark);
    assert d == t[..|d|] && e == t[..|e|];
    FormatInjective(m, n);
    assert r == t[|d| + 1..] && s == t[|e| + 1..];
  }
}
