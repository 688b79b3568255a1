/** The size of a ring and the index of a ticket: bit operations on 64-bit numbers, and what they
    mean as arithmetic. */
module RingSize {
  import Arith

  const WORD := 0x1_0000_0000_0000_0000

  function Or(a: nat, b: nat): nat
    decreases a + b
  {
    if a == 0 && b == 0 then 0 else 2 * Or(a / 2, b / 2) + if a % 2 == 1 || b % 2 == 1 then 1 else 0
  }

  function And(a: nat, b: nat): nat {
    if a == 0 || b == 0 then 0 else 2 * And(a / 2, b / 2) + if a % 2 == 1 && b % 2 == 1 then 1 else 0
  }

  function Shr(n: nat, k: nat): nat {
    if k == 0 then n else Shr(n / 2, k - 1)
  }

  function Pow2(k: nat): nat {
    if k == 0 then 1 else 2 * Pow2(k - 1)
  }

  predicate IsPow2(n: nat) {
    n == 1 || (n > 0 && n % 2 == 0 && IsPow2(n / 2))
  }

  // ----- smearing the highest bit to the right

  /** The bits of the `m` numbers `n`, `n / 2`, `n / 4` and so on. */
  function Window(n: nat, m: nat): nat {
    if m == 0 then 0 else Or(n, Window(n / 2, m - 1))
  }

  /** All bits up to the highest one of `n`. */
  function Fill(n: nat): nat {
    if n == 0 then 0 else 2 * Fill(n / 2) + 1
  }

  lemma {:induction false} OrZero(n: nat)
    ensures Or(0, n) == n && Or(n, 0) == n
  {
    if n > 0 {
      OrZero(n / 2);
    }
  }

  lemma {:induction false} OrParts(a: nat, b: nat)
    ensures Or(a, b) / 2 == Or(a / 2, b / 2)
    ensures Or(a, b) % 2 == 1 <==> a % 2 == 1 || b % 2 == 1
  {
  }

  lemma {:induction false} OrAssoc(a: nat, b: nat, c: nat)
    ensures Or(Or(a, b), c) == Or(a, Or(b, c))
    decreases a + b + c
  {
    if a + b + c > 0 {
      OrAssoc(a / 2, b / 2, c / 2);
      OrParts(a, b);
      OrParts(b, c);
      OrParts(Or(a, b), c);
      OrParts(a, Or(b, c));
    }
  }

  lemma {:induction false} WindowHalf(n: nat, m: nat)
    ensures Window(n, m) / 2 == Window(n / 2, m)
    decreases m
  {
    if m > 0 {
      WindowHalf(n / 2, m - 1);
      OrParts(n, Window(n / 2, m - 1));
    }
  }

  lemma {:induction false} WindowShr(n: nat, m: nat, k: nat)
    ensures Shr(Window(n, m), k) == Window(Shr(n, k), m)
    decreases k
  {
    if k > 0 {
      WindowHalf(n, m);
      WindowShr(n / 2, m, k - 1);
    }
  }

  lemma {:induction false} WindowSplit(n: nat, a: nat, b: nat)
    ensures Window(n, a + b) == Or(Window(n, a), Window(Shr(n, a), b))
    decreases a
  {
    if a == 0 {
      OrZero(Window(n, b));
    } else {
      WindowSplit(n / 2, a - 1, b);
      OrAssoc(n, Window(n / 2, a - 1), Window(Shr(n, a), b));
    }
  }

  /** Each step doubles the window. */
  lemma {:induction false} Doubled(n: nat, m: nat)
    ensures Or(Window(n, m), Shr(Window(n, m), m)) == Window(n, 2 * m)
  {
    WindowShr(n, m, m);
    WindowSplit(n, m, m);
  }

  lemma {:induction false} OrFill(n: nat)
    ensures Or(n, Fill(n / 2)) == Fill(n)
  {
    if n > 0 {
      OrFill(n / 2);
      OrParts(n, Fill(n / 2));
    }
  }

  lemma {:induction false} FillWindow(n: nat, m: nat)
    requires n < Pow2(m)
    ensures Window(n, m) == Fill(n)
    decreases m
  {
    if m > 0 {
      FillWindow(n / 2, m - 1);
      OrFill(n);
    }
  }

  lemma {:induction false} Powers()
    ensures Pow2(63) == 0x8000_0000_0000_0000 && Pow2(64) == WORD
  {
    Twice(8, 8);
    Twice(16, 16);
    Twice(32, 31);
    Twice(32, 32);
    Twice(16, 15);
    assert Pow2(8) == 256 && Pow2(15) == 32768;
  }

  lemma {:induction false} Twice(a: nat, b: nat)
    ensures Pow2(a + b) == Pow2(a) * Pow2(b)
  {
    if b > 0 {
      Twice(a, b - 1);
      assert Pow2(a + b) == 2 * Pow2(a + (b - 1));
    }
  }

  // ----- the round-up

  /** Both the decrement and the increment wrap around. */
  method RoundUp(v: nat) returns (r: nat)
    requires v < WORD
    ensures r == Rounded(v)
  {
    var n := if v == 0 then WORD - 1 else v - 1;
    OrZero(n);
    var w := Smear(n, 1, n);
    w := Smear(w, 2, n);
    w := Smear(w, 4, n);
    w := Smear(w, 8, n);
    w := Smear(w, 16, n);
    w := Smear(w, 32, n);
    Filled(n, w);
    r := (w + 1) % WORD;
  }

  /** One line of the source: the number with its own upper bits shifted down over it. */
  method Smear(w: nat, k: nat, ghost n: nat) returns (r: nat)
    requires w == Window(n, k)
    ensures r == Window(n, 2 * k)
  {
    Doubled(n, k);
    r := Or(w, Shr(w, k));
  }

  lemma {:induction false} Filled(n: nat, w: nat)
    requires n < WORD && w == Window(n, 64)
    ensures w == Fill(n)
  {
    Powers();
    FillWindow(n, 64);
  }

  function Rounded(v: nat): nat
    requires v < WORD
  {
    (Fill(if v == 0 then WORD - 1 else v - 1) + 1) % WORD
  }

  lemma {:induction false} FillIsPow2(n: nat)
    ensures IsPow2(Fill(n) + 1) && n <= Fill(n) && (n > 0 ==> Fill(n) + 1 <= 2 * n)
  {
    if n > 0 {
      FillIsPow2(n / 2);
      assert (Fill(n) + 1) / 2 == Fill(n / 2) + 1;
    }
  }

  lemma {:induction false} FillBounds(n: nat, k: nat)
    ensures n < Pow2(k) ==> Fill(n) < Pow2(k)
    ensures n >= Pow2(k) ==> Fill(n) + 1 >= 2 * Pow2(k)
    decreases k
  {
    if k > 0 {
      FillBounds(n / 2, k - 1);
    }
  }

  /** The round-up of a size from 1 to 2^63 is the smallest power of two that is not below it; of
      any other 64-bit number it is 0. */
  lemma {:induction false} RoundedMeaning(v: nat)
    requires v < WORD
    ensures var r := Rounded(v);
            if v == 0 || v > 0x8000_0000_0000_0000 then r == 0
            else IsPow2(r) && v <= r && forall p: nat | IsPow2(p) && v <= p :: r <= p
  {
    var n := if v == 0 then WORD - 1 else v - 1;
    Powers();
    FillIsPow2(n);
    FillBounds(n, 63);
    FillBounds(n, 64);
    if 0 < v <= 0x8000_0000_0000_0000 {
      forall p: nat | IsPow2(p) && v <= p
        ensures Fill(n) + 1 <= p
      {
        Pow2Above(n, p);
      }
    }
  }

  lemma {:induction false} Pow2Above(n: nat, p: nat)
    requires IsPow2(p) && n < p
    ensures Fill(n) < p
    decreases n
  {
    if n > 0 {
      Pow2Above(n / 2, p / 2);
    }
  }

  // ----- the mask

  /** Masking with a power of two less one is the remainder. */
  lemma {:induction false} AndIsMod(pos: nat, size: nat)
    requires IsPow2(size)
    ensures And(pos, size - 1) == pos % size
    decreases size
  {
    if size > 1 {
      AndIsMod(pos / 2, size / 2);
      HalfMod(pos, size / 2);
      AndParts(pos, size - 1);
    }
  }

  lemma {:induction false} AndParts(a: nat, b: nat)
    ensures And(a, b) == 2 * And(a / 2, b / 2) + if a % 2 == 1 && b % 2 == 1 then 1 else 0
  {
  }

  lemma {:induction false} HalfMod(pos: nat, h: nat)
    requires h > 0
    ensures pos % (2 * h) == 2 * (pos / 2 % h) + pos % 2
  {
    var q, m := pos / 2 / h, pos / 2 % h;
    assert pos / 2 == h * q + m;
    assert pos == 2 * (pos / 2) + pos % 2;
    assert pos == (2 * h) * q + (2 * m + pos % 2);
    Arith.ModUnique(pos, q, 2 * m + pos % 2, 2 * h);
  }
}
