/**
 The digit-run-aware order of schema keys (internal/planning/harness004.go). The reference
 order reads a string as a sequence of tokens, a token being a whole digit run or one other
 byte; digit runs compare by numeric value and, at equal value, bytewise.
 */
module NaturalOrder {
  import Sorting
  import Strings

  predicate IsDigit(c: char) { '0' <= c <= '9' }

  predicate AllDigits(s: string) { forall i :: 0 <= i < |s| ==> IsDigit(s[i]) }

  function Digit(c: char): nat
    requires IsDigit(c)
  {
    c as int - '0' as int
  }

  function Pow10(n: nat): nat
  {
    if n == 0 then 1 else 10 * Pow10(n - 1)
  }

  /** The number a digit run denotes; leading zeros do not matter. */
  function Value(run: string): nat
    requires AllDigits(run)
  {
    if run == "" then 0 else Digit(run[0]) * Pow10(|run| - 1) + Value(run[1..])
  }

  // ---------------------------------------------------------------- reference order

  datatype Token = Number(run: string) | Symbol(c: char)

  ghost predicate WellFormed(t: Token)
  {
    match t
    case Number(run) => run != "" && AllDigits(run)
    case Symbol(c) => !IsDigit(c)
  }

  predicate TokenLess(x: Token, y: Token)
    requires WellFormed(x) && WellFormed(y)
  {
    match (x, y)
    case (Number(r), Number(s)) => Value(r) < Value(s) || (Value(r) == Value(s) && Strings.Less(r, s))
    case (Symbol(c), Symbol(d)) => c < d
    case (Number(_), Symbol(d)) => '9' < d
    case (Symbol(c), Number(_)) => c < '0'
  }

  /** The length of the digit run that s starts with. */
  function RunLength(s: string): (n: nat)
    ensures n <= |s| && AllDigits(s[..n])
    ensures n < |s| ==> !IsDigit(s[n])
  {
    if s == "" || !IsDigit(s[0]) then 0
    else
      var n := 1 + RunLength(s[1..]);
      assert forall i :: 1 <= i < |s| ==> s[i] == s[1..][i - 1];
      n
  }

  function Head(s: string): (t: Token)
    requires s != ""
    ensures WellFormed(t)
  {
    if IsDigit(s[0]) then Number(s[..RunLength(s)]) else Symbol(s[0])
  }

  function Rest(s: string): (r: string)
    requires s != ""
    ensures |r| < |s|
  {
    if IsDigit(s[0]) then s[RunLength(s)..] else s[1..]
  }

  /** Token by token, the first difference decides; a proper prefix comes first. */
  predicate Less(a: string, b: string)
    decreases |a|
  {
    if a == "" || b == "" then |a| < |b|
    else if Head(a) == Head(b) then Less(Rest(a), Rest(b))
    else TokenLess(Head(a), Head(b))
  }

  // ---------------------------------------------------------------- the loop

  /** strings.TrimLeft(run, "0") */
  function TrimZeros(run: string): (t: string)
    requires AllDigits(run)
    ensures AllDigits(t) && (t == "" || t[0] != '0')
    ensures Value(t) == Value(run)
  {
    if run != "" && run[0] == '0' then TrimZeros(run[1..]) else run
  }

  /** A run's extent is determined by its digits: the scan finds the token's run. */
  lemma RunLengthUnique(s: string, i: nat)
    requires i <= |s| && AllDigits(s[..i])
    requires i < |s| ==> !IsDigit(s[i])
    ensures RunLength(s) == i
  {
    var n := RunLength(s);
    forall k | 0 <= k < i ensures IsDigit(s[k]) { assert s[k] == s[..i][k]; }
    forall k | 0 <= k < n ensures IsDigit(s[k]) { assert s[k] == s[..n][k]; }
  }

  method NaturalLess(first: string, second: string) returns (less: bool)
    ensures less == Less(first, second)
  {
    var a, b := first, second;
    while |a| > 0 && |b| > 0
      invariant Less(a, b) == Less(first, second)
      decreases |a|
    {
      if IsDigit(a[0]) && IsDigit(b[0]) {
        var i, j := 0, 0;
        while i < |a| && IsDigit(a[i])
          invariant 0 <= i <= |a| && AllDigits(a[..i])
        {
          i := i + 1;
        }
        while j < |b| && IsDigit(b[j])
          invariant 0 <= j <= |b| && AllDigits(b[..j])
        {
          j := j + 1;
        }
        RunLengthUnique(a, i);
        RunLengthUnique(b, j);
        var x, y := TrimZeros(a[..i]), TrimZeros(b[..j]);
        ShortlexIsNumeric(x, y);
        if |x| != |y| {
          return |x| < |y|;
        }
        if x != y {
          return Strings.Less(x, y);
        }
        if a[..i] != b[..j] {
          return Strings.Less(a[..i], b[..j]);
        }
        a, b := a[i..], b[j..];
        continue;
      }
      if a[0] != b[0] {
        return a[0] < b[0];
      }
      a, b := a[1..], b[1..];
    }
    return |a| < |b|;
  }

  // ---------------------------------------------------------------- digit runs as numbers

  lemma Scale(x: nat, y: nat, p: nat)
    requires x <= y
    ensures x * p <= y * p
  {
  }

  lemma {:induction false} Pow10Monotonic(m: nat, n: nat)
    requires m <= n
    ensures 1 <= Pow10(m) <= Pow10(n)
    decreases n
  {
    if m < n {
      Pow10Monotonic(m, n - 1);
    } else if 0 < m {
      Pow10Monotonic(m - 1, n - 1);
    }
  }

  /** A run of n digits is below 10^n, and at least 10^(n-1) when it starts with a non-zero digit. */
  lemma {:induction false} ValueBounds(run: string)
    requires AllDigits(run)
    ensures Value(run) < Pow10(|run|)
    ensures run != "" && run[0] != '0' ==> Pow10(|run| - 1) <= Value(run)
  {
    if run != "" {
      ValueBounds(run[1..]);
      Scale(Digit(run[0]), 9, Pow10(|run| - 1));
      if run[0] != '0' {
        Scale(1, Digit(run[0]), Pow10(|run| - 1));
      }
    }
  }

  lemma LeadingDigitDecides(d: nat, e: nat, p: nat, u: nat, v: nat)
    requires d < e && u < p
    ensures d * p + u < e * p + v
  {
    Scale(d + 1, e, p);
    assert (d + 1) * p == d * p + p;
  }

  lemma {:induction false} SameLengthNumeric(x: string, y: string)
    requires AllDigits(x) && AllDigits(y) && |x| == |y|
    ensures Strings.Less(x, y) <==> Value(x) < Value(y)
    ensures x == y <==> Value(x) == Value(y)
  {
    if x != "" {
      SameLengthNumeric(x[1..], y[1..]);
      ValueBounds(x[1..]);
      ValueBounds(y[1..]);
      assert x == [x[0]] + x[1..] && y == [y[0]] + y[1..];
      if x[0] < y[0] {
        LeadingDigitDecides(Digit(x[0]), Digit(y[0]), Pow10(|x| - 1), Value(x[1..]), Value(y[1..]));
      } else if y[0] < x[0] {
        LeadingDigitDecides(Digit(y[0]), Digit(x[0]), Pow10(|x| - 1), Value(y[1..]), Value(x[1..]));
      }
    }
  }

  /** On runs without leading zeros, "shorter first, then bytewise" is numeric order. */
  lemma ShortlexIsNumeric(x: string, y: string)
    requires AllDigits(x) && AllDigits(y)
    requires x == "" || x[0] != '0'
    requires y == "" || y[0] != '0'
    ensures (|x| < |y| || (|x| == |y| && Strings.Less(x, y))) <==> Value(x) < Value(y)
    ensures x == y <==> Value(x) == Value(y)
  {
    if |x| == |y| {
      SameLengthNumeric(x, y);
    } else {
      ValueBounds(x);
      ValueBounds(y);
      if |x| < |y| {
        Pow10Monotonic(|x|, |y| - 1);
      } else {
        Pow10Monotonic(|y|, |x| - 1);
      }
    }
  }

  // ---------------------------------------------------------------- a strict total order

  lemma TokenLessIsStrictTotalOrder(x: Token, y: Token, z: Token)
    requires WellFormed(x) && WellFormed(y) && WellFormed(z)
    ensures !TokenLess(x, x)
    ensures TokenLess(x, y) || x == y || TokenLess(y, x)
    ensures TokenLess(x, y) && TokenLess(y, z) ==> TokenLess(x, z)
  {
    Strings.LessIsStrictTotalOrder();
  }

  lemma {:induction false} LessIrreflexive(a: string)
    ensures !Less(a, a)
    decreases |a|
  {
    if a != "" {
      LessIrreflexive(Rest(a));
    }
  }

  lemma {:induction false} LessTotal(a: string, b: string)
    ensures Less(a, b) || a == b || Less(b, a)
    decreases |a|
  {
    if a != "" && b != "" {
      if Head(a) == Head(b) {
        LessTotal(Rest(a), Rest(b));
        HeadAndRest(a);
        HeadAndRest(b);
      } else {
        TokenLessIsStrictTotalOrder(Head(a), Head(b), Head(a));
      }
    }
  }

  function Text(t: Token): string
  {
    match t
    case Number(run) => run
    case Symbol(c) => [c]
  }

  lemma HeadAndRest(a: string)
    requires a != ""
    ensures a == Text(Head(a)) + Rest(a)
  {
  }

  lemma {:induction false} LessTransitive(a: string, b: string, c: string)
    requires Less(a, b) && Less(b, c)
    ensures Less(a, c)
    decreases |a|
  {
    if a != "" {
      if Head(a) == Head(b) == Head(c) {
        LessTransitive(Rest(a), Rest(b), Rest(c));
      } else {
        TokenLessIsStrictTotalOrder(Head(a), Head(b), Head(c));
        TokenLessIsStrictTotalOrder(Head(a), Head(c), Head(a));
      }
    }
  }

  /** naturalLess is irreflexive, total and transitive, so sorting by it has one result. */
  lemma LessIsStrictTotalOrder()
    ensures Sorting.StrictTotalOrder(Less)
  {
    forall a: string ensures !Less(a, a) { LessIrreflexive(a); }
    forall a: string, b: string ensures Less(a, b) || a == b || Less(b, a) { LessTotal(a, b); }
    forall a: string, b: string, c: string | Less(a, b) && Less(b, c) ensures Less(a, c) { LessTransitive(a, b, c); }
  }

  // ---------------------------------------------------------------- F2 before F10

  /** strconv.Itoa for a non-negative number. */
  function Decimal(n: nat): (s: string)
    ensures s != "" && AllDigits(s)
    ensures 0 < n ==> s[0] != '0'
  {
    if n < 10 then [('0' as int + n) as char]
    else Decimal(n / 10) + [('0' as int + n % 10) as char]
  }

  lemma {:induction false} ValueAppend(r: string, s: string)
    requires AllDigits(r) && AllDigits(s)
    ensures AllDigits(r + s)
    ensures Value(r + s) == Value(r) * Pow10(|s|) + Value(s)
  {
    if r == "" {
      assert r + s == s;
    } else {
      ValueAppend(r[1..], s);
      assert (r + s)[1..] == r[1..] + s;
      assert (r + s)[0] == r[0];
      PowAdd(|r| - 1, |s|);
      Distribute(Digit(r[0]), Pow10(|r| - 1), Pow10(|s|), Value(r[1..]));
    }
  }

  lemma Distribute(d: nat, p: nat, q: nat, v: nat)
    ensures (d * p + v) * q == d * (p * q) + v * q
  {
    assert (d * p) * q == d * (p * q);
  }

  lemma {:induction false} PowAdd(m: nat, n: nat)
    ensures Pow10(m + n) == Pow10(m) * Pow10(n)
  {
    if 0 < m {
      PowAdd(m - 1, n);
      Distribute(10, Pow10(m - 1), Pow10(n), 0);
    }
  }

  lemma {:induction false} DecimalValue(n: nat)
    ensures Value(Decimal(n)) == n
  {
    var last := [('0' as int + n % 10) as char];
    assert Value(last) == n % 10 by { assert last[1..] == ""; }
    if 10 <= n {
      DecimalValue(n / 10);
      ValueAppend(Decimal(n / 10), last);
      assert Pow10(1) == 10;
    }
  }

  /** Extending a run r by the decimals of n and of m > n keeps the numeric order. */
  lemma AppendedNumberOrder(r: string, n: nat, m: nat)
    requires AllDigits(r) && n < m
    ensures AllDigits(r + Decimal(n)) && AllDigits(r + Decimal(m))
    ensures Value(r + Decimal(n)) < Value(r + Decimal(m))
  {
    var x, y := Decimal(n), Decimal(m);
    ValueAppend(r, x);
    ValueAppend(r, y);
    DecimalValue(n);
    DecimalValue(m);
    ValueBounds(x);
    ValueBounds(y);
    if |y| < |x| {
      Pow10Monotonic(|y|, |x| - 1);
    }
    Pow10Monotonic(|x|, |y|);
    assert Value(r) * Pow10(|x|) <= Value(r) * Pow10(|y|) by {
      Scale(Pow10(|x|), Pow10(|y|), Value(r));
    }
  }

  /** What follows a digit run does not matter once the runs differ. */
  lemma DifferingRuns(r: string, s: string, tail: string, tail': string)
    requires r != "" && s != "" && AllDigits(r) && AllDigits(s) && Value(r) < Value(s)
    requires tail == "" || !IsDigit(tail[0])
    requires tail' == "" || !IsDigit(tail'[0])
    ensures Less(r + tail, s + tail')
  {
    assert (r + tail)[..|r|] == r && (s + tail')[..|s|] == s;
    RunLengthUnique(r + tail, |r|);
    RunLengthUnique(s + tail', |s|);
  }

  /** The first token of p + x is that of p unless p is one digit run. */
  lemma FirstTokenOfPrefix(p: string, x: string)
    requires p != "" && RunLength(p) < |p|
    ensures Head(p + x) == Head(p) && Rest(p + x) == Rest(p) + x
  {
    var k, s := RunLength(p), p + x;
    assert s[0] == p[0];
    if IsDigit(p[0]) {
      Strings.SlicesOfConcat(p, x, k);
      RunLengthUnique(s, k);
    } else {
      assert s[1..] == p[1..] + x;
    }
  }

  /**
   Numbered names sort by their number, whatever surrounds the number on the left and as
   long as what follows does not continue the digit run.
   */
  lemma {:induction false} NumberedNamesInOrder(prefix: string, n: nat, m: nat, tail: string, tail': string)
    requires n < m
    requires tail == "" || !IsDigit(tail[0])
    requires tail' == "" || !IsDigit(tail'[0])
    ensures Less(prefix + (Decimal(n) + tail), prefix + (Decimal(m) + tail'))
    decreases |prefix|
  {
    if RunLength(prefix) == |prefix| {
      AppendedNumberOrder(prefix, n, m);
      DifferingRuns(prefix + Decimal(n), prefix + Decimal(m), tail, tail');
      Strings.Associative(prefix, Decimal(n), tail);
      Strings.Associative(prefix, Decimal(m), tail');
    } else {
      FirstTokenOfPrefix(prefix, Decimal(n) + tail);
      FirstTokenOfPrefix(prefix, Decimal(m) + tail');
      NumberedNamesInOrder(Rest(prefix), n, m, tail, tail');
    }
  }
}
