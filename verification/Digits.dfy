/** ASCII digits: the numbers that runs of digits denote, and how numbers are printed. */
module Digits {
  import opened Prelude

  // ASCII codes of the punctuation the two grammars use.
  const ZERO: byte := 48
  const MINUS: byte := 45
  const PLUS: byte := 43
  const DOT: byte := 46
  const COLON: byte := 58

  predicate IsDigit(b: byte) { 48 <= b <= 57 }

  predicate AllDigits(s: Bytes) { forall i :: 0 <= i < |s| ==> IsDigit(s[i]) }

  predicate AllZeros(s: Bytes) { forall i :: 0 <= i < |s| ==> s[i] == ZERO }

  function Digit(b: byte): nat
    requires IsDigit(b)
  {
    b - 48
  }

  function Pow10(n: nat): (p: nat)
    ensures p > 0
  {
    if n == 0 then 1 else 10 * Pow10(n - 1)
  }

  /** The number a run of digits denotes. */
  function Value(s: Bytes): (v: nat)
    requires AllDigits(s)
  {
    if s == [] then 0 else 10 * Value(s[..|s| - 1]) + Digit(s[|s| - 1])
  }

  /** The shortest decimal form of `n`. */
  function Print(n: nat): (s: Bytes)
    ensures AllDigits(s) && |s| > 0
  {
    if n < 10 then [48 + n] else Print(n / 10) + [48 + n % 10]
  }

  /** The last `w` digits of `n`: all of them when `n < Pow10(w)`. */
  function Padded(n: nat, w: nat): (s: Bytes)
    ensures AllDigits(s) && |s| == w
  {
    if w == 0 then [] else Padded(n / 10, w - 1) + [48 + n % 10]
  }

  /** `n` with leading zeros up to width `w`, as `{:0w}` formats a non-negative number. */
  function ZeroPadded(n: nat, w: nat): (s: Bytes)
    ensures AllDigits(s) && |s| >= w
  {
    var p := Print(n);
    if |p| >= w then p else Zeros(w - |p|) + p
  }

  function Zeros(n: nat): (s: Bytes)
    ensures |s| == n && AllZeros(s) && AllDigits(s)
  {
    seq(n, _ => 48)
  }

  /** `s` without its trailing zeros. */
  function TrimZeros(s: Bytes): (r: Bytes)
    ensures |r| <= |s| && r == s[..|r|]
    ensures forall i :: |r| <= i < |s| ==> s[i] == ZERO
    ensures r != [] ==> r[|r| - 1] != ZERO
  {
    if s != [] && s[|s| - 1] == ZERO then TrimZeros(s[..|s| - 1]) else s
  }

  /** Where the run of digits that starts at `i` ends. */
  function RunEnd(s: Bytes, i: nat): (e: nat)
    requires i <= |s|
    ensures i <= e <= |s| && AllDigits(s[i..e])
    ensures e < |s| ==> !IsDigit(s[e])
    decreases |s| - i
  {
    if i < |s| && IsDigit(s[i]) then RunEnd(s, i + 1) else i
  }

  /** A run of digits ends where the first non-digit stands. */
  lemma {:induction false} RunEndIs(s: Bytes, i: nat, e: nat)
    requires i <= e <= |s| && AllDigits(s[i..e])
    requires e < |s| ==> !IsDigit(s[e])
    ensures RunEnd(s, i) == e
    decreases e - i
  {
    if i < e {
      assert s[i..e][0] == s[i];
      assert s[i + 1..e] == s[i..e][1..];
      RunEndIs(s, i + 1, e);
    }
  }

  lemma {:induction false} ValueBound(s: Bytes)
    requires AllDigits(s)
    ensures Value(s) < Pow10(|s|)
  {
    if s != [] {
      ValueBound(s[..|s| - 1]);
    }
  }

  /** Appending a digit shifts the value by one place. */
  lemma ValuePush(s: Bytes, d: byte)
    requires AllDigits(s) && IsDigit(d)
    ensures AllDigits(s + [d]) && Value(s + [d]) == 10 * Value(s) + Digit(d)
  {
    assert (s + [d])[..|s|] == s;
  }

  lemma MulPow(x: nat, n: nat)
    ensures x * Pow10(n + 1) == 10 * (x * Pow10(n))
  {
    assert Pow10(n + 1) == 10 * Pow10(n);
  }

  /** Concatenation is place value. */
  lemma {:induction false} ValueConcat(s: Bytes, t: Bytes)
    requires AllDigits(s) && AllDigits(t)
    ensures AllDigits(s + t)
    ensures Value(s + t) == Value(s) * Pow10(|t|) + Value(t)
  {
    if t == [] {
      assert s + t == s;
    } else {
      var t', d := t[..|t| - 1], t[|t| - 1];
      ValueConcat(s, t');
      assert s + t == (s + t') + [d];
      ValuePush(s + t', d);
      MulPow(Value(s), |t'|);
    }
  }

  lemma {:induction false} ValueOfZeros(s: Bytes)
    requires AllZeros(s)
    ensures AllDigits(s) && Value(s) == 0
  {
    if s != [] {
      ValueOfZeros(s[..|s| - 1]);
    }
  }

  lemma {:induction false} ValueZero(s: Bytes)
    requires AllDigits(s)
    ensures Value(s) == 0 <==> AllZeros(s)
  {
    if s != [] {
      ValueZero(s[..|s| - 1]);
      assert s == s[..|s| - 1] + [s[|s| - 1]];
    }
  }

  lemma {:induction false} ValueOfPrint(n: nat)
    ensures Value(Print(n)) == n
    ensures |Print(n)| == 1 || Print(n)[0] != ZERO
  {
    if n < 10 {
      assert [48 + n][..0] == [];
    } else {
      ValueOfPrint(n / 10);
      ValuePush(Print(n / 10), 48 + n % 10);
      if |Print(n / 10)| == 1 {
        assert Value(Print(n / 10)) == n / 10;
        ValueZero(Print(n / 10));
      }
    }
  }

  /** Printing inverts Value on runs without a leading zero. */
  lemma {:induction false} PrintOfValue(s: Bytes)
    requires AllDigits(s) && |s| > 0
    requires |s| == 1 || s[0] != ZERO
    ensures Print(Value(s)) == s
  {
    if |s| > 1 {
      var s' := s[..|s| - 1];
      PrintOfValue(s');
      ValueZero(s');
      assert Value(s') > 0;
      assert Value(s) / 10 == Value(s');
      assert Value(s) % 10 == Digit(s[|s| - 1]);
      assert s == s' + [s[|s| - 1]];
    } else {
      assert s[..0] == [];
    }
  }

  lemma NoDigits()
    ensures Value([]) == 0 && Pow10(0) == 1
  {
  }

  lemma {:induction false} ValueOfPadded(n: nat, w: nat)
    requires n < Pow10(w)
    ensures Value(Padded(n, w)) == n
  {
    hide Value, AllDigits;
    NoDigits();
    if w > 0 {
      ValueOfPadded(n / 10, w - 1);
      ValuePush(Padded(n / 10, w - 1), 48 + n % 10);
    }
  }

  lemma {:induction false} PaddedOfValue(s: Bytes)
    requires AllDigits(s)
    ensures Padded(Value(s), |s|) == s
  {
    if s != [] {
      var s' := s[..|s| - 1];
      PaddedOfValue(s');
      assert Value(s) / 10 == Value(s');
      assert s == s' + [s[|s| - 1]];
    }
  }

  /** Zero padding to a width that suffices gives exactly that many digits. */
  lemma ZeroPaddedIsPadded(n: nat, w: nat)
    requires n < Pow10(w) && w > 0
    ensures ZeroPadded(n, w) == Padded(n, w)
  {
    PrintLength(n, w);
    var p := Print(n);
    var z := Zeros(w - |p|);
    var s := z + p;
    ValueOfZeros(z);
    ValueOfPrint(n);
    ValueConcat(z, p);
    PaddedOfValue(s);
    if |p| == w {
      assert s == p;
    }
  }

  lemma {:induction false} PrintLength(n: nat, w: nat)
    requires w > 0
    ensures |Print(n)| <= w <==> n < Pow10(w)
  {
    if w == 1 {
      assert Pow10(1) == 10;
    } else if n >= 10 {
      PrintLength(n / 10, w - 1);
    } else {
      PowAtLeastTen(w);
    }
  }

  lemma {:induction false} PowAtLeastTen(w: nat)
    requires w > 0
    ensures Pow10(w) >= 10
  {
    if w > 1 {
      PowAtLeastTen(w - 1);
    }
  }

  lemma {:induction false} PowAdd(m: nat, n: nat)
    ensures Pow10(m + n) == Pow10(m) * Pow10(n)
  {
    if n > 0 {
      PowAdd(m, n - 1);
      assert m + n == (m + (n - 1)) + 1;
      MulPow(Pow10(m), n - 1);
    }
  }

  lemma Pow10Values()
    ensures Pow10(2) == 100 && Pow10(4) == 10000
    ensures Pow10(8) == 100_000_000 && Pow10(9) == 1_000_000_000
  {
    assert Pow10(3) == 1000;
    assert Pow10(6) == 1_000_000;
    assert Pow10(7) == 10_000_000;
  }

  lemma MulAssoc(x: int, y: int, z: int)
    ensures (x * y) * z == x * (y * z)
  {
  }

  /** A fraction means the same with and without its trailing zeros. */
  lemma TrimKeepsFraction(s: Bytes, w: nat)
    requires AllDigits(s) && |s| <= w
    ensures AllDigits(TrimZeros(s))
    ensures Value(TrimZeros(s)) * Pow10(w - |TrimZeros(s)|) == Value(s) * Pow10(w - |s|)
  {
    var t := TrimZeros(s);
    var z := s[|t|..];
    assert s == t + z;
    ValueOfZeros(z);
    ValueConcat(t, z);
    PowAdd(|z|, w - |s|);
    assert |z| + (w - |s|) == w - |t|;
    MulAssoc(Value(t), Pow10(|z|), Pow10(w - |s|));
  }

  /** Trimming stops exactly at the last digit that is not zero. */
  lemma {:induction false} TrimZerosIs(s: Bytes, r: Bytes)
    requires |r| <= |s| && r == s[..|r|] && AllZeros(s[|r|..])
    requires r != [] ==> r[|r| - 1] != ZERO
    ensures TrimZeros(s) == r
  {
    if |r| < |s| {
      assert s[|s| - 1] == s[|r|..][|s| - 1 - |r|];
      assert s[..|s| - 1][|r|..] == s[|r|..][..|s| - 1 - |r|];
      assert s[..|s| - 1][..|r|] == r;
      TrimZerosIs(s[..|s| - 1], r);
    }
  }

  lemma TrimOfPadded(f: Bytes, z: Bytes)
    requires AllZeros(z)
    ensures TrimZeros(f + z) == TrimZeros(f)
  {
    var t := TrimZeros(f);
    var w := f + z;
    assert w[..|t|] == t;
    assert AllZeros(w[|t|..]);
    TrimZerosIs(w, t);
  }

  /** A fraction padded to `n` places denotes its number of units of the last place. */
  lemma FractionInUnits(f: Bytes, n: nat)
    requires AllDigits(f) && |f| <= n
    ensures var w := f + Zeros(n - |f|);
            && AllDigits(w) && |w| == n
            && Value(w) == Value(f) * Pow10(n - |f|) && Value(w) < Pow10(n)
            && (Value(w) == 0 <==> TrimZeros(f) == [])
  {
    var z := Zeros(n - |f|);
    var w := f + z;
    ValueConcat(f, z);
    ValueOfZeros(z);
    ValueBound(w);
    ValueZero(w);
    var t := TrimZeros(f);
    if t == [] {
      assert AllZeros(w);
    } else {
      assert w[|t| - 1] == t[|t| - 1];
    }
  }

  /** Printing the units to `n` places and trimming gives the trimmed fraction back. */
  lemma TrimOfUnits(f: Bytes, n: nat)
    requires AllDigits(f) && |f| <= n
    ensures TrimZeros(Padded(Value(f) * Pow10(n - |f|), n)) == TrimZeros(f)
  {
    FractionInUnits(f, n);
    PaddedOfValue(f + Zeros(n - |f|));
    TrimOfPadded(f, Zeros(n - |f|));
  }
}
