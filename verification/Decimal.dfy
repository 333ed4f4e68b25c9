/** strconv.Itoa, fmt's %05d and strconv.Atoi on a 64-bit int. */
module Decimal {
  import opened Wrappers
  import opened GoStrings

  const MAX_INT64 := 0x7FFF_FFFF_FFFF_FFFF
  const MIN_INT64 := -0x8000_0000_0000_0000

  predicate IsDigit(c: Byte) {
    '0' <= c <= '9'
  }

  predicate AllDigits(s: Str) {
    forall i :: 0 <= i < |s| ==> IsDigit(s[i])
  }

  function Digit(d: nat): (c: Byte)
    requires d < 10
    ensures IsDigit(c) && c as int - '0' as int == d
  {
    (d + '0' as int) as char
  }

  /** The number a string of digits denotes. */
  function Value(s: Str): nat
    requires AllDigits(s)
  {
    if s == [] then 0 else Value(s[..|s| - 1]) * 10 + (s[|s| - 1] as int - '0' as int)
  }

  /** strconv.Itoa for a non-negative number. */
  function Itoa(n: nat): (s: Str)
    ensures |s| >= 1 && AllDigits(s) && Value(s) == n
  {
    if n < 10 then [Digit(n)] else
      var front := Itoa(n / 10);
      var s := front + [Digit(n % 10)];
      assert s[..|s| - 1] == front;
      s
  }

  /** fmt.Sprintf("%05d", n) for a non-negative number. */
  function Pad5(n: nat): (s: Str) {
    Zeros(5 - Min(5, |Itoa(n)|)) + Itoa(n)
  }

  function Zeros(k: nat): (s: Str)
    ensures |s| == k && forall i :: 0 <= i < k ==> s[i] == '0'
  {
    if k == 0 then [] else ['0'] + Zeros(k - 1)
  }

  /** strconv.Atoi: an optional sign, then digits, in the range of int64. */
  function Atoi(s: Str): Option<int> {
    if s == [] then None
    else
      var negative := s[0] == '-';
      var digits := if s[0] == '-' || s[0] == '+' then s[1..] else s;
      if digits == [] || !AllDigits(digits) then None
      else
        var magnitude: int := Value(digits);
        var v := if negative then -magnitude else magnitude;
        if MIN_INT64 <= v <= MAX_INT64 then Some(v) else None
  }

  // ------------------------------------------------------------------

  lemma {:induction false} ValueLeadingZeros(k: nat, s: Str)
    requires AllDigits(s)
    ensures AllDigits(Zeros(k) + s) && Value(Zeros(k) + s) == Value(s)
    decreases |s|, k
  {
    if s != [] {
      ValueLeadingZeros(k, s[..|s| - 1]);
      assert (Zeros(k) + s)[..|Zeros(k) + s| - 1] == Zeros(k) + s[..|s| - 1];
    } else if k > 0 {
      ValueLeadingZeros(k - 1, []);
      assert Zeros(k) + s == Zeros(k) && Zeros(k - 1) + [] == Zeros(k - 1);
      assert Zeros(k)[..k - 1] == Zeros(k - 1);
    }
  }

  /** An n of at most k digits is written in at most k digits. */
  lemma {:induction false} ItoaLength(n: nat)
    requires n < 100000
    ensures |Itoa(n)| <= 5
  {
    assert |Itoa(n / 10000)| == 1;
    assert |Itoa(n / 1000)| <= 2 by { assert n / 1000 / 10 == n / 10000; }
    assert |Itoa(n / 100)| <= 3 by { assert n / 100 / 10 == n / 1000; }
    assert |Itoa(n / 10)| <= 4 by { assert n / 10 / 10 == n / 100; }
  }

  /** For every number of at most five digits, parsing the padded form gives the number back. */
  lemma Pad5RoundTrip(n: nat)
    requires n < 100000
    ensures |Pad5(n)| == 5 && AllDigits(Pad5(n)) && Value(Pad5(n)) == n
    ensures Atoi(Pad5(n)) == Some(n)
  {
    ItoaLength(n);
    ValueLeadingZeros(5 - |Itoa(n)|, Itoa(n));
  }

  /** Between digit strings of one length, lexical order is numeric order. */
  lemma {:induction false} DigitOrder(a: Str, b: Str)
    requires |a| == |b| && AllDigits(a) && AllDigits(b)
    ensures Less(a, b) <==> Value(a) < Value(b)
    decreases |a|
  {
    if a != [] {
      var k := |a| - 1;
      DigitOrder(a[..k], b[..k]);
      DigitOrder(b[..k], a[..k]);
      LessTotal(a[..k], b[..k]);
      assert a == a[..k] + [a[k]] && b == b[..k] + [b[k]];
      if a[..k] == b[..k] {
        LessSamePrefix(a[..k], [a[k]], [b[k]]);
      } else {
        LessExtend(a[..k], b[..k], [a[k]], [b[k]]);
      }
    }
  }

  /** Part-file names: lexical order is part-number order. */
  lemma Pad5Order(m: nat, n: nat)
    requires m < 100000 && n < 100000
    ensures Less(Pad5(m), Pad5(n)) <==> m < n
  {
    Pad5RoundTrip(m);
    Pad5RoundTrip(n);
    DigitOrder(Pad5(m), Pad5(n));
  }

  /** What is written in decimal, with or without a sign, is read back, as far as an int64 goes. */
  lemma AtoiReads(n: nat)
    ensures Atoi(Itoa(n)) == (if n <= MAX_INT64 then Some(n) else None)
    ensures Atoi(['+'] + Itoa(n)) == (if n <= MAX_INT64 then Some(n) else None)
    ensures Atoi(['-'] + Itoa(n)) == (if n <= MAX_INT64 + 1 then Some(0 - n) else None)
  {
    var s := Itoa(n);
    assert IsDigit(s[0]) && (['+'] + s)[1..] == s && (['-'] + s)[1..] == s;
  }

  /** And nothing else is: a sign at most, then digits and only digits. */
  lemma AtoiRefuses(s: Str)
    requires Atoi(s).Some?
    ensures s != [] && (IsDigit(s[0]) || (|s| > 1 && (s[0] == '-' || s[0] == '+')))
    ensures forall i :: 1 <= i < |s| ==> IsDigit(s[i])
  {
    if s[0] == '-' || s[0] == '+' {
      var digits := s[1..];
      assert forall i :: 1 <= i < |s| ==> s[i] == digits[i - 1];
    }
  }
}
