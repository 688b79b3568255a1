/** Positional numbers, most significant digit first. */
module Digits {
  import Arith

  function Value(ds: seq<nat>, base: nat): nat {
    if ds == [] then 0 else Value(ds[..|ds| - 1], base) * base + ds[|ds| - 1]
  }

  function Pow(base: nat, k: nat): nat {
    if k == 0 then 1 else Pow(base, k - 1) * base
  }

  /** The digits of a number, without leading zeros; none for 0. */
  function Canonical(n: nat, base: nat): seq<nat>
    requires base >= 2
    decreases n
  {
    if n == 0 then []
    else
      Quotient(n, base);
      Canonical(n / base, base) + [n % base]
  }

  /** Exactly `k` digits of a number. */
  function Fixed(n: nat, base: nat, k: nat): seq<nat>
    requires base >= 2
  {
    if k == 0 then [] else Fixed(n / base, base, k - 1) + [n % base]
  }

  function Zeros(k: nat): seq<nat> {
    if k == 0 then [] else Zeros(k - 1) + [0]
  }

  function Leading(ds: seq<nat>): nat {
    if ds == [] || ds[0] != 0 then 0 else 1 + Leading(ds[1..])
  }

  predicate Valid(ds: seq<nat>, base: nat) {
    forall i | 0 <= i < |ds| :: ds[i] < base
  }

  lemma {:induction false} Quotient(n: nat, base: nat)
    requires n > 0 && base >= 2
    ensures 0 <= n / base < n && n % base < base && n == n / base * base + n % base
  {
    var q := n / base;
    Arith.MulSign(q, base - 2);
    assert q * base == q * (base - 2) + 2 * q;
  }

  lemma {:induction false} SplitLast(q: nat, r: nat, base: nat)
    requires base >= 2 && r < base
    ensures (q * base + r) / base == q && (q * base + r) % base == r
  {
    Arith.ModUnique(q * base + r, q, r, base);
  }

  lemma {:induction false} ValueCanonical(n: nat, base: nat)
    requires base >= 2
    ensures Value(Canonical(n, base), base) == n && Valid(Canonical(n, base), base)
    ensures n > 0 ==> Canonical(n, base) != [] && Canonical(n, base)[0] != 0
    decreases n
  {
    if n > 0 {
      Quotient(n, base);
      var q := n / base;
      ValueCanonical(q, base);
      var ds := Canonical(q, base);
      assert (ds + [n % base])[..|ds|] == ds;
    }
  }

  lemma {:induction false} ValuePositive(ds: seq<nat>, base: nat)
    requires base >= 2 && ds != [] && ds[0] != 0
    ensures Value(ds, base) > 0
    decreases |ds|
  {
    if |ds| > 1 {
      ValuePositive(ds[..|ds| - 1], base);
      Arith.MulSign(Value(ds[..|ds| - 1], base), base - 1);
    }
  }

  lemma {:induction false} CanonicalValue(ds: seq<nat>, base: nat)
    requires base >= 2 && Valid(ds, base) && (ds != [] ==> ds[0] != 0)
    ensures Canonical(Value(ds, base), base) == ds
    decreases |ds|
  {
    if ds != [] {
      var init, last := ds[..|ds| - 1], ds[|ds| - 1];
      CanonicalValue(init, base);
      ValuePositive(ds, base);
      SplitLast(Value(init, base), last, base);
      assert ds == init + [last];
    }
  }

  lemma {:induction false} ValueAppend(a: seq<nat>, b: seq<nat>, base: nat)
    ensures Value(a + b, base) == Value(a, base) * Pow(base, |b|) + Value(b, base)
    decreases |b|
  {
    if b == [] {
      assert a + b == a;
    } else {
      var init, last := b[..|b| - 1], b[|b| - 1];
      ValueAppend(a, init, base);
      assert (a + b)[..|a + b| - 1] == a + init;
      Regroup(Value(a, base), Pow(base, |init|), Value(init, base), base);
    }
  }

  lemma {:induction false} Regroup(a: nat, p: nat, v: nat, base: nat)
    ensures (a * p + v) * base == a * (p * base) + v * base
  {
    assert (a * p) * base == a * (p * base);
  }

  lemma {:induction false} ValueZeros(k: nat, ds: seq<nat>, base: nat)
    ensures Value(Zeros(k) + ds, base) == Value(ds, base)
    decreases |ds|
  {
    if ds == [] {
      assert Zeros(k) + ds == Zeros(k);
      ZerosValue(k, base);
    } else {
      var init := ds[..|ds| - 1];
      ValueZeros(k, init, base);
      assert (Zeros(k) + ds)[..|Zeros(k) + ds| - 1] == Zeros(k) + init;
    }
  }

  lemma {:induction false} ZerosValue(k: nat, base: nat)
    ensures Value(Zeros(k), base) == 0 && |Zeros(k)| == k && forall i | 0 <= i < k :: Zeros(k)[i] == 0
  {
    if k > 0 {
      ZerosValue(k - 1, base);
      assert Zeros(k)[..k - 1] == Zeros(k - 1);
    }
  }

  lemma {:induction false} ZerosFront(k: nat)
    requires k > 0
    ensures Zeros(k) == [0] + Zeros(k - 1)
  {
    if k > 1 {
      ZerosFront(k - 1);
    }
  }

  lemma {:induction false} LeadingZeros(k: nat, ds: seq<nat>)
    requires ds != [] ==> ds[0] != 0
    ensures Leading(Zeros(k) + ds) == k
  {
    if k > 0 {
      ZerosFront(k);
      assert (Zeros(k) + ds)[1..] == Zeros(k - 1) + ds;
      LeadingZeros(k - 1, ds);
    } else {
      assert Zeros(0) + ds == ds;
    }
  }

  lemma {:induction false} DropZero(ds: seq<nat>, base: nat)
    requires ds != [] && ds[0] == 0
    ensures Value(ds, base) == Value(ds[1..], base)
  {
    ValueZeros(1, ds[1..], base);
    assert Zeros(1) == [0];
    assert ds == [0] + ds[1..];
  }

  /** A list of digits is its leading zeros and the canonical digits of its value. */
  lemma {:induction false} Decompose(ds: seq<nat>, base: nat)
    requires base >= 2 && Valid(ds, base)
    ensures Zeros(Leading(ds)) + Canonical(Value(ds, base), base) == ds
    decreases |ds|
  {
    if ds != [] && ds[0] == 0 {
      var rest := ds[1..];
      Decompose(rest, base);
      DropZero(ds, base);
      var k, c := Leading(rest), Canonical(Value(rest, base), base);
      ZerosFront(k + 1);
      assert ds == [0] + rest;
      assert Zeros(k + 1) + c == [0] + (Zeros(k) + c);
    } else {
      CanonicalValue(ds, base);
    }
  }

  /** Converting digits keeps the value and the number of leading zeros. */
  function Convert(ds: seq<nat>, from: nat, to: nat): seq<nat>
    requires to >= 2
  {
    Zeros(Leading(ds)) + Canonical(Value(ds, from), to)
  }

  /** Conversion to another base and back is the identity, leading zeros included. */
  lemma {:induction false} ConvertInverse(ds: seq<nat>, from: nat, to: nat)
    requires from >= 2 && to >= 2 && Valid(ds, from)
    ensures Convert(Convert(ds, from, to), to, from) == ds && Valid(Convert(ds, from, to), to)
  {
    var n, k := Value(ds, from), Leading(ds);
    var c := Canonical(n, to);
    ValueCanonical(n, to);
    if n == 0 {
      assert c == [];
    }
    LeadingZeros(k, c);
    ValueZeros(k, c, to);
    Decompose(ds, from);
    ZerosValue(k, to);
  }

  /** The last `k` digits can be split off a larger number. */
  lemma {:induction false} CanonicalSplit(x: nat, m: nat, base: nat, k: nat)
    requires base >= 2 && x > 0 && m < Pow(base, k)
    ensures Canonical(x * Pow(base, k) + m, base) == Canonical(x, base) + Fixed(m, base, k)
    decreases k
  {
    if k == 0 {
      assert Canonical(x, base) + Fixed(m, base, 0) == Canonical(x, base);
    } else {
      var p, q, r := Pow(base, k - 1), m / base, m % base;
      assert m == q * base + r;
      QuotientBelow(m, p, base);
      Regroup(x, p, q, base);
      assert x * Pow(base, k) + m == (x * p + q) * base + r;
      SplitLast(x * p + q, r, base);
      CanonicalSplit(x, q, base, k - 1);
      PowPositive(base, k - 1);
      Arith.MulSign(x, p);
      assert x * p + q > 0;
      Arith.MulSign(x * p + q, base);
    }
  }

  lemma {:induction false} PowPositive(base: nat, k: nat)
    requires base >= 2
    ensures Pow(base, k) >= 1
  {
    if k > 0 {
      PowPositive(base, k - 1);
      Arith.MulSign(Pow(base, k - 1), base);
    }
  }

  lemma {:induction false} QuotientBelow(m: nat, p: nat, base: nat)
    requires base >= 2 && m < p * base
    ensures m / base < p
  {
    var q := m / base;
    Arith.MulSign(base, q - p);
    assert base * (q - p) == q * base - p * base;
  }

  lemma {:induction false} Recompose(n: nat, base: nat)
    requires base >= 2
    ensures n / base * base + n % base == n
  {
  }

  lemma {:induction false} ValueSnoc(ds: seq<nat>, d: nat, base: nat)
    ensures Value(ds + [d], base) == Value(ds, base) * base + d
  {
    assert (ds + [d])[..|ds|] == ds;
  }

  /** A number below the power is the value of its fixed digits. */
  lemma {:induction false} FixedValue(n: nat, base: nat, k: nat)
    requires base >= 2 && n < Pow(base, k)
    ensures |Fixed(n, base, k)| == k && Value(Fixed(n, base, k), base) == n
  {
    if k > 0 {
      QuotientBelow(n, Pow(base, k - 1), base);
      FixedValue(n / base, base, k - 1);
      ValueSnoc(Fixed(n / base, base, k - 1), n % base, base);
      Recompose(n, base);
    }
  }
}
