/** The kernel's share of a mint, divided among nodes by their work of the day before. */
module MintWorks {
  import Arith
  import opened Integers

  /** Rounds led and rounds signed. */
  datatype Work = Work(led: nat, signed: nat)

  // ----- the specification

  function Raw(w: Work): nat {
    NewInteger(w.led) * 120 / 100 + NewInteger(w.signed)
  }

  function Raws(ws: seq<Work>): seq<nat> {
    seq(|ws|, i requires 0 <= i < |ws| => Raw(ws[i]))
  }

  function Total(xs: seq<nat>): nat {
    if xs == [] then 0 else Total(xs[..|xs| - 1]) + xs[|xs| - 1]
  }

  function Active(xs: seq<nat>): nat {
    if xs == [] then 0 else Active(xs[..|xs| - 1]) + (if xs[|xs| - 1] > 0 then 1 else 0)
  }

  /** The smallest positive work, 0 if there is none. */
  function Least(xs: seq<nat>): nat {
    if xs == [] then 0
    else
      var m, x := Least(xs[..|xs| - 1]), xs[|xs| - 1];
      if x == 0 then m else if m == 0 || x < m then x else m
  }

  function Greatest(xs: seq<nat>): nat {
    if xs == [] then 0 else if xs[|xs| - 1] > Greatest(xs[..|xs| - 1]) then xs[|xs| - 1] else Greatest(xs[..|xs| - 1])
  }

  /** Work as the share counts it, around the average `a`. */
  function Adjust(a: nat, x: nat): nat {
    if x >= a * 7 then a * 2
    else if x >= a then x / 6 + a * 5 / 6
    else if x <= a / 7 then a / 7
    else x
  }

  function Adjusts(a: nat, xs: seq<nat>): seq<nat> {
    seq(|xs|, i requires 0 <= i < |xs| => Adjust(a, xs[i]))
  }

  function Share(base: nat, x: nat, total: nat): nat
    requires total > 0
  {
    base * x / total
  }

  function SharesOf(base: nat, xs: seq<nat>, total: nat): seq<nat>
    requires total > 0
  {
    seq(|xs|, i requires 0 <= i < |xs| => Share(base, xs[i], total))
  }

  // ----- the trimmed mean

  /** Without the least and the greatest, each of the others still counts at least the least. */
  lemma {:induction false} TrimmedTotal(xs: seq<nat>)
    ensures Active(xs) >= 1 ==> 0 < Least(xs) <= Greatest(xs) <= Total(xs)
    ensures Active(xs) == 0 ==> Least(xs) == 0 && Greatest(xs) == 0 && Total(xs) == 0
    ensures Active(xs) == 1 ==> Least(xs) == Greatest(xs) == Total(xs)
    ensures Active(xs) >= 2 ==> Total(xs) >= Least(xs) + Greatest(xs) + (Active(xs) - 2) * Least(xs)
    ensures Active(xs) >= 2 ==> Total(xs) >= Least(xs) + Greatest(xs)
    decreases |xs|
  {
    if xs != [] {
      var init, x := xs[..|xs| - 1], xs[|xs| - 1];
      TrimmedTotal(init);
      if x > 0 && Active(init) >= 2 {
        var k, l, l' := Active(init) - 2, Least(init), Least(xs);
        assert k * l' <= k * l by {
          MulBelow(k, l', l);
        }
        assert (k + 1) * l' == k * l' + l';
      }
    }
  }

  lemma {:induction false} MulBelow(k: nat, a: nat, b: nat)
    requires a <= b
    ensures k * a <= k * b
  {
    assert k * (b - a) >= 0;
  }

  lemma {:induction false} TrimmedRoom(xs: seq<nat>)
    requires Active(xs) >= 2
    ensures Total(xs) >= Least(xs) + Greatest(xs)
  {
    TrimmedTotal(xs);
  }

  function Average(xs: seq<nat>): nat
    requires Active(xs) > 2
  {
    TrimmedRoom(xs);
    (Total(xs) - Least(xs) - Greatest(xs)) / (Active(xs) - 2)
  }

  lemma {:induction false} DivAtLeast(total: nat, k: nat, l: nat)
    requires k > 0 && total >= k * l
    ensures total / k >= l
  {
    var q := total / k;
    Arith.MulSign(k, l - (q + 1));
    assert k * (l - (q + 1)) == k * l - (k * q + k);
  }

  /** The average is at least the smallest positive work, so it is never zero. */
  lemma {:induction false} AverageAtLeast(xs: seq<nat>)
    requires Active(xs) > 2
    ensures Average(xs) >= Least(xs) > 0
  {
    TrimmedTotal(xs);
    DivAtLeast(Total(xs) - Least(xs) - Greatest(xs), Active(xs) - 2, Least(xs));
  }

  lemma {:induction false} DivExact(m: nat)
    ensures (100 * m) / 100 == m
  {
  }

  lemma {:induction false} RawSize(w: Work)
    ensures Raw(w) == 120000000 * w.led + PRECISION * w.signed
    ensures Raw(w) == 0 || Raw(w) >= PRECISION
    ensures Raw(w) == 0 <==> w == Work(0, 0)
  {
    assert NewInteger(w.led) * 120 == 100 * (120000000 * w.led);
    DivExact(120000000 * w.led);
  }

  lemma {:induction false} LeastIsOne(xs: seq<nat>)
    ensures Active(xs) > 0 ==> Least(xs) in xs && Least(xs) > 0
    ensures Active(xs) == 0 ==> Least(xs) == 0
    decreases |xs|
  {
    if xs != [] {
      LeastIsOne(xs[..|xs| - 1]);
      assert xs == xs[..|xs| - 1] + [xs[|xs| - 1]];
    }
  }

  // ----- the adjustment keeps the order

  /** More work never counts less, even where the pieces meet. */
  lemma {:induction false} AdjustMonotone(a: nat, x: nat, y: nat)
    requires x <= y
    ensures Adjust(a, x) <= Adjust(a, y)
  {
  }

  lemma {:induction false} AdjustBounds(a: nat, x: nat)
    ensures a / 7 <= Adjust(a, x) <= a * 2
  {
  }

  // ----- shares

  lemma {:induction false} FloorShare(base: nat, x: nat, total: nat)
    requires total > 0
    ensures Share(base, x, total) * total <= base * x < (Share(base, x, total) + 1) * total
  {
    var q := Share(base, x, total);
    assert (q + 1) * total == q * total + total;
  }

  lemma {:induction false} ProductOrder(a: nat, b: nat, t: nat)
    requires t > 0
    ensures a * t <= b * t ==> a <= b
    ensures a * t < b * t ==> a < b
  {
    Arith.MulSign(t, a - b);
    Arith.MulSign(t, b - a);
    assert t * (a - b) == a * t - b * t;
    assert t * (b - a) == b * t - a * t;
  }

  lemma {:induction false} SharesPrefix(base: nat, xs: seq<nat>, total: nat, n: nat)
    requires total > 0 && n <= |xs|
    ensures var s := Total(SharesOf(base, xs, total)[..n]);
            && s * total <= base * Total(xs[..n])
            && (n > 0 ==> base * Total(xs[..n]) < (s + n) * total)
  {
    if n > 0 {
      var shares := SharesOf(base, xs, total);
      SharesPrefix(base, xs, total, n - 1);
      FloorShare(base, xs[n - 1], total);
      assert shares[..n][..n - 1] == shares[..n - 1] && xs[..n][..n - 1] == xs[..n - 1];
      var s, q, t := Total(shares[..n - 1]), shares[n - 1], Total(xs[..n - 1]);
      assert (s + q) * total == s * total + q * total;
      assert base * (t + xs[n - 1]) == base * t + base * xs[n - 1];
      assert (s + q + n) * total == (s + n - 1) * total + (q + 1) * total;
    }
  }

  /** The shares sum to at most the base and miss it by less than the number of nodes. */
  lemma {:induction false} SharesSum(base: nat, xs: seq<nat>)
    requires Total(xs) > 0
    ensures var s := Total(SharesOf(base, xs, Total(xs)));
            s <= base < s + |xs|
  {
    var total, n := Total(xs), |xs|;
    var shares := SharesOf(base, xs, total);
    SharesPrefix(base, xs, total, n);
    assert shares[..n] == shares && xs[..n] == xs;
    ProductOrder(Total(shares), base, total);
    ProductOrder(base, Total(shares) + n, total);
  }

  lemma {:induction false} ShareMonotone(base: nat, x: nat, y: nat, total: nat)
    requires total > 0 && x <= y
    ensures Share(base, x, total) <= Share(base, y, total)
  {
    FloorShare(base, x, total);
    FloorShare(base, y, total);
    MulBelow(base, x, y);
    ProductOrder(Share(base, x, total), Share(base, y, total) + 1, total);
  }

  /** A node that did more raw work never earns less. */
  lemma {:induction false} MoreWorkNeverEarnsLess(base: nat, a: nat, xs: seq<nat>, i: nat, j: nat)
    requires i < |xs| && j < |xs| && xs[i] <= xs[j] && Total(Adjusts(a, xs)) > 0
    ensures var shares := SharesOf(base, Adjusts(a, xs), Total(Adjusts(a, xs)));
            shares[i] <= shares[j]
  {
    AdjustMonotone(a, xs[i], xs[j]);
    ShareMonotone(base, Adjust(a, xs[i]), Adjust(a, xs[j]), Total(Adjusts(a, xs)));
  }

  lemma {:induction false} TotalBounds(xs: seq<nat>, low: nat, high: nat)
    requires forall i | 0 <= i < |xs| :: low <= xs[i] <= high
    ensures |xs| * low <= Total(xs) <= |xs| * high
    decreases |xs|
  {
    if xs != [] {
      TotalBounds(xs[..|xs| - 1], low, high);
      assert |xs| * high == (|xs| - 1) * high + high;
      assert |xs| * low == (|xs| - 1) * low + low;
    }
  }

  /** No share is zero if the base is at least fifteen units a node. */
  lemma {:induction false} SharesPositive(base: nat, a: nat, xs: seq<nat>, i: nat)
    requires a >= 90 && base >= 15 * |xs| && i < |xs| && Total(Adjusts(a, xs)) > 0
    ensures SharesOf(base, Adjusts(a, xs), Total(Adjusts(a, xs)))[i] > 0
  {
    var ys, n := Adjusts(a, xs), |xs|;
    var total, y := Total(ys), ys[i];
    forall k | 0 <= k < n
      ensures 0 <= ys[k] <= a * 2
    {
      AdjustBounds(a, xs[k]);
    }
    TotalBounds(ys, 0, a * 2);
    AdjustBounds(a, xs[i]);
    assert 15 * y >= 2 * a;
    Arrange(n, y, a);
    MulBelow(y, 15 * n, base);
    assert base * y >= n * (a * 2) >= total;
    FloorShare(base, y, total);
    ProductOrder(1, Share(base, y, total) + 1, total);
  }

  lemma {:induction false} Arrange(n: nat, y: nat, a: nat)
    requires 15 * y >= 2 * a
    ensures y * (15 * n) >= n * (a * 2)
  {
    MulBelow(n, a * 2, 15 * y);
    assert y * (15 * n) == n * (15 * y);
  }

  // ----- what the shares are, in terms of raw work

  /** Work as it is meant to count, times 42: twice the mean from seven times the mean on, a sixth of
      what exceeds the mean below that, a seventh of the mean at least. */
  function Ideal(a: nat, x: nat): nat {
    if x >= 7 * a then 84 * a
    else if x >= a then 42 * a + 7 * (x - a)
    else if 7 * x <= a then 6 * a
    else 42 * x
  }

  lemma {:induction false} AdjustIsIdeal(a: nat, x: nat)
    ensures Ideal(a, x) - 70 <= 42 * Adjust(a, x) <= Ideal(a, x)
    ensures a < 7 * x && x < a ==> Adjust(a, x) == x
    ensures x >= 7 * a ==> Adjust(a, x) == 2 * a
    ensures x == a > 0 ==> a - 1 <= Adjust(a, x) <= a
    ensures 7 * x <= a ==> a - 6 <= 7 * Adjust(a, x) <= a
  {
  }

  /** Shares are in the proportion of the weights, up to one unit. */
  ghost predicate InProportion(s: nat, x: nat, t: nat, y: nat) {
    s * y < (t + 1) * x && t * x < (s + 1) * y
  }

  lemma {:induction false} ShareBelow(base: nat, x: nat, y: nat, total: nat)
    requires total > 0 && x > 0
    ensures Share(base, x, total) * y < (Share(base, y, total) + 1) * x
  {
    FloorShare(base, x, total);
    FloorShare(base, y, total);
    CrossBelow(Share(base, x, total), Share(base, y, total) + 1, base, x, y, total);
  }

  lemma {:induction false} CrossBelow(s: nat, t: nat, base: nat, x: nat, y: nat, total: nat)
    requires x > 0 && total > 0 && s * total <= base * x && base * y < t * total
    ensures s * y < t * x
  {
    MulBelow(y, s * total, base * x);
    MulStrictly(x, base * y, t * total);
    Rearrange(y, s, total);
    Rearrange(x, t, total);
    assert y * (base * x) == x * (base * y) by {
      Rearrange(y, base, x);
      Rearrange(x, base, y);
    }
    ProductOrder(s * y, t * x, total);
  }

  lemma {:induction false} Rearrange(a: nat, b: nat, c: nat)
    ensures a * (b * c) == b * a * c && b * a * c == b * c * a
  {
  }

  lemma {:induction false} MulStrictly(k: nat, a: nat, b: nat)
    requires k > 0 && a < b
    ensures k * a < k * b
  {
    MulBelow(k, a + 1, b);
    assert k * (a + 1) == k * a + k;
  }

  lemma {:induction false} ScaleUp(s: nat, t: nat, x: nat, y: nat, low: int, high: nat)
    requires s * y < (t + 1) * x && low <= 42 * y && 42 * x <= high
    ensures s * low < (t + 1) * high
  {
    assert s * low <= s * (42 * y) by {
      Arith.MulSign(s, low - 42 * y);
      assert s * (low - 42 * y) == s * low - s * (42 * y);
    }
    MulBelow(t + 1, 42 * x, high);
    assert s * (42 * y) == 42 * (s * y) && (t + 1) * (42 * x) == 42 * ((t + 1) * x);
  }

  /** Any two nodes are paid in the proportion in which their raw work is meant to count, up to one
      unit and to 70 of the 42 times as many units of work. */
  ghost predicate PaidByWork(a: nat, xs: seq<nat>, shares: seq<nat>)
    requires |shares| == |xs|
  {
    forall i, j | 0 <= i < |xs| && 0 <= j < |xs| ::
      shares[i] * (Ideal(a, xs[j]) - 70) < (shares[j] + 1) * Ideal(a, xs[i])
  }

  lemma {:induction false} SharesPayByWork(base: nat, a: nat, xs: seq<nat>)
    requires a >= 7 && Total(Adjusts(a, xs)) > 0
    ensures PaidByWork(a, xs, SharesOf(base, Adjusts(a, xs), Total(Adjusts(a, xs))))
  {
    var total := Total(Adjusts(a, xs));
    var shares := SharesOf(base, Adjusts(a, xs), total);
    forall i, j | 0 <= i < |xs| && 0 <= j < |xs|
      ensures shares[i] * (Ideal(a, xs[j]) - 70) < (shares[j] + 1) * Ideal(a, xs[i])
    {
      var x, y := Adjust(a, xs[i]), Adjust(a, xs[j]);
      AdjustBounds(a, xs[i]);
      AdjustIsIdeal(a, xs[i]);
      AdjustIsIdeal(a, xs[j]);
      ShareBelow(base, x, y, total);
      ScaleUp(shares[i], shares[j], x, y, Ideal(a, xs[j]) - 70, Ideal(a, xs[i]));
    }
  }

  /** Between a seventh of the mean and the mean, pay is in proportion to raw work. */
  lemma {:induction false} MiddlePaidInProportion(base: nat, a: nat, xs: seq<nat>, i: nat, j: nat)
    requires Total(Adjusts(a, xs)) > 0 && i < |xs| && j < |xs|
    requires a < 7 * xs[i] && xs[i] < a && a < 7 * xs[j] && xs[j] < a
    ensures var shares := SharesOf(base, Adjusts(a, xs), Total(Adjusts(a, xs)));
            InProportion(shares[i], xs[i], shares[j], xs[j])
  {
    AdjustIsIdeal(a, xs[i]);
    AdjustIsIdeal(a, xs[j]);
    ShareBelow(base, xs[i], xs[j], Total(Adjusts(a, xs)));
    ShareBelow(base, xs[j], xs[i], Total(Adjusts(a, xs)));
  }

  /** From seven times the mean on a node earns twice what one at the mean does, and up to a seventh
      of the mean a seventh of it. */
  lemma {:induction false} ExtremesPaid(base: nat, a: nat, xs: seq<nat>, i: nat, j: nat)
    requires a >= 7 && Total(Adjusts(a, xs)) > 0 && i < |xs| && j < |xs| && xs[j] == a
    ensures var shares := SharesOf(base, Adjusts(a, xs), Total(Adjusts(a, xs)));
            && (xs[i] >= 7 * a ==>
                  2 * shares[j] <= shares[i] && shares[i] * (a - 1) < (shares[j] + 1) * (2 * a))
            && (7 * xs[i] <= a ==>
                  shares[i] * (7 * (a - 1)) < (shares[j] + 1) * a && shares[j] * (a - 6) < (shares[i] + 1) * (7 * a))
  {
    var total := Total(Adjusts(a, xs));
    var x, m := Adjust(a, xs[i]), Adjust(a, a);
    AdjustIsIdeal(a, xs[i]);
    AdjustIsIdeal(a, a);
    AdjustBounds(a, xs[i]);
    ShareBelow(base, x, m, total);
    ShareBelow(base, m, x, total);
    if xs[i] >= 7 * a {
      UpperRatio(Share(base, x, total), Share(base, m, total), a, m);
    }
    if 7 * xs[i] <= a {
      LowerRatio(Share(base, x, total), Share(base, m, total), a, m, x);
    }
  }

  lemma {:induction false} UpperRatio(s: nat, t: nat, a: nat, m: nat)
    requires 1 <= a && a - 1 <= m <= a && s * m < (t + 1) * (2 * a) && t * (2 * a) < (s + 1) * m
    ensures 2 * t <= s && s * (a - 1) < (t + 1) * (2 * a)
  {
    MulBelow(s, a - 1, m);
    MulBelow(s + 1, m, a);
    assert t * (2 * a) == (2 * t) * a;
    ProductOrder(2 * t, s + 1, a);
  }

  lemma {:induction false} LowerRatio(s: nat, t: nat, a: nat, m: nat, x: nat)
    requires 7 <= a && a - 1 <= m <= a && a - 6 <= 7 * x <= a && s * m < (t + 1) * x && t * x < (s + 1) * m
    ensures s * (7 * (a - 1)) < (t + 1) * a && t * (a - 6) < (s + 1) * (7 * a)
  {
    SevenTimes(s, t + 1, m, x, a - 1, a);
    Sevenfold(s, a - 1);
    SevenTimesBelow(t, s + 1, x, m, a - 6, a);
    Sevenfold(s + 1, a);
  }

  lemma {:induction false} Sevenfold(p: nat, q: nat)
    ensures p * (7 * q) == 7 * (p * q)
  {
  }

  lemma {:induction false} SevenTimes(s: nat, t: nat, m: nat, x: nat, low: nat, high: nat)
    requires s * m < t * x && low <= m && 7 * x <= high
    ensures 7 * (s * low) < t * high
  {
    MulBelow(s, low, m);
    MulBelow(t, 7 * x, high);
    Sevenfold(t, x);
  }

  lemma {:induction false} SevenTimesBelow(t: nat, s: nat, x: nat, m: nat, low: nat, high: nat)
    requires t * x < s * m && low <= 7 * x && m <= high
    ensures t * low < 7 * (s * high)
  {
    MulBelow(t, low, 7 * x);
    MulBelow(s, m, high);
    Sevenfold(t, x);
  }

  /** Between the mean and seven times the mean, six more units of raw work count one. */
  lemma {:induction false} SixthCounts(a: nat, x: nat)
    requires a <= x && x + 6 < 7 * a
    ensures Adjust(a, x + 6) == Adjust(a, x) + 1
  {
  }

  // ----- the trimmed mean, by its two ends

  function Workers(xs: seq<nat>): set<nat> {
    set i | 0 <= i < |xs| && xs[i] > 0
  }

  lemma {:induction false} ActiveCounts(xs: seq<nat>)
    ensures Active(xs) == |Workers(xs)|
    decreases |xs|
  {
    if xs != [] {
      var init, n := xs[..|xs| - 1], |xs| - 1;
      ActiveCounts(init);
      assert Workers(xs) == Workers(init) + if xs[n] > 0 then {n} else {};
      assert n !in Workers(init);
    }
  }

  lemma {:induction false} TotalWithout(xs: seq<nat>, i: nat)
    requires i < |xs|
    ensures Total(xs[i := 0]) == Total(xs) - xs[i]
    decreases |xs|
  {
    var init, n := xs[..|xs| - 1], |xs| - 1;
    if i < n {
      TotalWithout(init, i);
      assert xs[i := 0][..n] == init[i := 0];
    } else {
      assert xs[i := 0][..n] == init;
    }
  }

  lemma {:induction false} EndsFound(xs: seq<nat>) returns (i: nat, j: nat)
    requires Active(xs) >= 2
    ensures i < |xs| && j < |xs| && i != j && xs[i] == Least(xs) > 0 && xs[j] == Greatest(xs)
    ensures forall k | 0 <= k < |xs| :: xs[k] <= xs[j] && (xs[k] > 0 ==> xs[i] <= xs[k])
    decreases |xs|
  {
    var init, n := xs[..|xs| - 1], |xs| - 1;
    TrimmedTotal(init);
    if Active(init) >= 2 {
      i, j := EndsFound(init);
      if xs[n] > 0 && xs[n] < init[i] {
        i := n;
      } else if xs[n] > init[j] {
        j := n;
      }
    } else {
      var k := OneActive(init);
      if xs[n] < init[k] {
        i, j := n, k;
      } else {
        i, j := k, n;
      }
    }
  }

  lemma {:induction false} OneActive(xs: seq<nat>) returns (k: nat)
    requires Active(xs) == 1
    ensures k < |xs| && xs[k] > 0 && Least(xs) == Greatest(xs) == xs[k]
    ensures forall i | 0 <= i < |xs| && i != k :: xs[i] == 0
    decreases |xs|
  {
    var init, n := xs[..|xs| - 1], |xs| - 1;
    TrimmedTotal(init);
    if xs[n] > 0 {
      k := n;
      NoneActive(init);
    } else {
      k := OneActive(init);
    }
  }

  lemma {:induction false} NoneActive(xs: seq<nat>)
    requires Active(xs) == 0
    ensures forall i | 0 <= i < |xs| :: xs[i] == 0
    decreases |xs|
  {
    if xs != [] {
      NoneActive(xs[..|xs| - 1]);
    }
  }

  /** The mean is that of the works that are left when one node with the least and one with the
      greatest are taken out. */
  lemma {:induction false} AverageIs(xs: seq<nat>) returns (i: nat, j: nat)
    requires Active(xs) > 2
    ensures i < |xs| && j < |xs| && i != j && xs[i] > 0
    ensures forall k | 0 <= k < |xs| :: xs[k] <= xs[j] && (xs[k] > 0 ==> xs[i] <= xs[k])
    ensures |Workers(xs)| > 2 && Average(xs) == Total(xs[i := 0][j := 0]) / (|Workers(xs)| - 2)
  {
    i, j := EndsFound(xs);
    ActiveCounts(xs);
    TotalWithout(xs, i);
    TotalWithout(xs[i := 0], j);
  }

  // ----- the code

  lemma {:induction false} LeastBig(xs: seq<nat>)
    requires Active(xs) > 0 && forall x <- xs :: x == 0 || x >= PRECISION
    ensures Least(xs) >= PRECISION
  {
    LeastIsOne(xs);
  }

  lemma {:induction false} RawsActive(ws: seq<Work>)
    requires Active(Raws(ws)) > 0
    ensures Least(Raws(ws)) >= PRECISION
  {
    forall i | 0 <= i < |ws|
      ensures Raws(ws)[i] == 0 || Raws(ws)[i] >= PRECISION
    {
      RawSize(ws[i]);
    }
    LeastBig(Raws(ws));
  }

  /** One pass that writes each node's raw work and keeps count, extremes and total. */
  method GatherWorks(ws: seq<Work>, m: array<nat>) returns (valid: nat, least: nat, greatest: nat, total: nat)
    requires m.Length == |ws|
    modifies m
    ensures m[..] == Raws(ws)
    ensures valid == Active(m[..]) && least == Least(m[..]) && greatest == Greatest(m[..]) && total == Total(m[..])
  {
    valid, least, greatest, total := 0, 0, 0, 0;
    ghost var xs := Raws(ws);
    for n := 0 to m.Length
      invariant m[..n] == xs[..n]
      invariant valid == Active(xs[..n]) && least == Least(xs[..n]) && greatest == Greatest(xs[..n]) &&
                total == Total(xs[..n])
    {
      assert xs[..n + 1][..n] == xs[..n];
      m[n] := Div(Mul(NewInteger(ws[n].led), 120), 100);
      var sign := NewInteger(ws[n].signed);
      if sign > 0 {
        m[n] := Add(m[n], sign);
      }
      assert m[..n + 1] == xs[..n + 1];
      if m[n] > 0 {
        valid := valid + 1;
        if least == 0 || m[n] < least {
          least := m[n];
        }
        if m[n] > greatest {
          greatest := m[n];
        }
        total := Add(total, m[n]);
      }
    }
    assert xs[..|xs|] == xs && m[..m.Length] == m[..];
  }

  method AdjustWorks(m: array<nat>, avg: nat) returns (total: nat)
    requires avg >= 7
    modifies m
    ensures m[..] == Adjusts(avg, old(m[..]))
    ensures total == Total(m[..])
  {
    total := 0;
    ghost var xs := m[..];
    ghost var ys := Adjusts(avg, xs);
    var upper, lower := Mul(avg, 7), Div(avg, 7);
    for n := 0 to m.Length
      invariant m[..n] == ys[..n] && m[n..] == xs[n..] && total == Total(ys[..n])
    {
      assert m[n] == m[n..][0] == xs[n] && xs[n..][1..] == xs[n + 1..];
      assert ys[..n + 1][..n] == ys[..n];
      if m[n] >= upper {
        m[n] := Mul(avg, 2);
      } else if m[n] >= avg {
        m[n] := Add(Div(m[n], 6), Div(Mul(avg, 5), 6));
      } else if m[n] <= lower {
        m[n] := Div(avg, 7);
      }
      assert m[n] == ys[n];
      AdjustBounds(avg, xs[n]);
      total := Add(total, m[n]);
      assert m[..n + 1] == ys[..n + 1];
    }
    assert ys[..|ys|] == ys && m[..m.Length] == m[..];
  }

  method ShareOut(m: array<nat>, base: nat, total: nat)
    requires total > 0
    modifies m
    ensures m[..] == SharesOf(base, old(m[..]), total)
  {
    ghost var xs := m[..];
    ghost var ys := SharesOf(base, xs, total);
    for n := 0 to m.Length
      invariant m[..n] == ys[..n] && m[n..] == xs[n..]
    {
      assert m[n] == m[n..][0] == xs[n];
      m[n] := base * m[n] / total;
      assert m[..n + 1] == ys[..n + 1];
    }
    assert m[..m.Length] == m[..];
  }

  /** The division of `base`.  It fails only when too few nodes worked; otherwise no operation
      panics, the shares sum to the base up to less than a unit a node, none is zero, and more
      work never earns less. */
  method DistributeKernelMintByWorks(ws: seq<Work>, threshold: nat, base: nat) returns (ok: bool, shares: seq<nat>)
    requires threshold >= 5
    ensures ok == (Active(Raws(ws)) >= threshold)
    ensures ok ==>
              var adjusted := Adjusts(Average(Raws(ws)), Raws(ws));
              Total(adjusted) > 0 && shares == SharesOf(base, adjusted, Total(adjusted))
    ensures ok ==> |shares| == |ws| && Total(shares) <= base < Total(shares) + |ws|
    ensures ok ==> PaidByWork(Average(Raws(ws)), Raws(ws), shares)
    ensures ok && base >= 15 * |ws| ==> forall i | 0 <= i < |ws| :: shares[i] > 0
    ensures ok ==> forall i, j | 0 <= i < |ws| && 0 <= j < |ws| && Raw(ws[i]) <= Raw(ws[j]) :: shares[i] <= shares[j]
  {
    var m := new nat[|ws|];
    var valid, least, greatest, total := GatherWorks(ws, m);
    if valid < threshold {
      return false, [];
    }
    ghost var xs := m[..];
    TrimmedTotal(xs);
    AverageAtLeast(xs);
    RawsActive(ws);
    var avg := Div(Sub(Sub(total, least), greatest), valid - 2);
    assert avg == Average(xs);
    total := AdjustWorks(m, avg);
    ghost var ys := m[..];
    WorkLeft(avg, xs);
    ShareOut(m, base, total);
    shares := m[..];
    SharesSum(base, ys);
    SharesPayByWork(base, avg, xs);
    SharesFair(base, avg, ws);
    return true, shares;
  }

  lemma {:induction false} WorkLeft(a: nat, xs: seq<nat>)
    requires a >= 7 && xs != []
    ensures Total(Adjusts(a, xs)) > 0
  {
    var ys := Adjusts(a, xs);
    AdjustBounds(a, xs[|xs| - 1]);
    assert ys[|ys| - 1] > 0;
  }

  lemma {:induction false} SharesFair(base: nat, a: nat, ws: seq<Work>)
    requires a >= 90 && Total(Adjusts(a, Raws(ws))) > 0
    ensures var shares := SharesOf(base, Adjusts(a, Raws(ws)), Total(Adjusts(a, Raws(ws))));
            && (base >= 15 * |ws| ==> forall i | 0 <= i < |ws| :: shares[i] > 0)
            && (forall i, j | 0 <= i < |ws| && 0 <= j < |ws| && Raw(ws[i]) <= Raw(ws[j]) :: shares[i] <= shares[j])
  {
    var xs := Raws(ws);
    if base >= 15 * |ws| {
      forall i | 0 <= i < |ws|
        ensures SharesOf(base, Adjusts(a, xs), Total(Adjusts(a, xs)))[i] > 0
      {
        SharesPositive(base, a, xs, i);
      }
    }
    forall i, j | 0 <= i < |ws| && 0 <= j < |ws| && Raw(ws[i]) <= Raw(ws[j])
      ensures var shares := SharesOf(base, Adjusts(a, xs), Total(Adjusts(a, xs))); shares[i] <= shares[j]
    {
      MoreWorkNeverEarnsLess(base, a, xs, i, j);
    }
  }

  /** On the first day all nodes get the same. */
  method DistributeEqually(nodes: nat, base: nat) returns (shares: seq<nat>)
    requires nodes > 0
    ensures |shares| == nodes && Total(shares) <= base < Total(shares) + nodes
    ensures forall i, j | 0 <= i < nodes && 0 <= j < nodes :: shares[i] == shares[j]
  {
    var work := Div(base, nodes);
    FloorShare(base, 1, nodes);
    shares := [];
    for n := 0 to nodes
      invariant |shares| == n && Total(shares) == n * work && forall i | 0 <= i < n :: shares[i] == work
    {
      assert (shares + [work])[..n] == shares;
      assert (n + 1) * work == n * work + work;
      shares := shares + [work];
    }
  }

  /** The outputs of a mint: the kernel's shares, four tenths for the custodian and the rest for
      the light pool, together exactly the input, which `topUp` may have raised. */
  method BuildUniversalMint(amount: nat, shares: seq<nat>, topUp: nat) returns (outputs: seq<nat>)
    requires amount >= 10 && Total(shares) <= amount / 10 * 5 && forall i | 0 <= i < |shares| :: shares[i] > 0
    ensures Total(outputs) == amount + topUp
    ensures |outputs| == |shares| + 2 && outputs[..|shares|] == shares && outputs[|shares|] == amount / 10 * 4
    ensures forall i | 0 <= i < |outputs| :: outputs[i] > 0
  {
    outputs := [];
    var total := 0;
    for n := 0 to |shares|
      invariant outputs == shares[..n] && total == Total(shares[..n])
    {
      assert shares[..n + 1][..n] == shares[..n];
      outputs := outputs + [shares[n]];
      total := Add(total, shares[n]);
    }
    assert shares[..|shares|] == shares;
    var safe := Mul(Div(amount, 10), 4);
    TotalSnoc(outputs, safe);
    outputs, total := outputs + [safe], Add(total, safe);
    var input: int := amount;
    if topUp > 0 {
      input := Add(input, topUp);
    }
    var light := Sub(input, total);
    TotalSnoc(outputs, light);
    outputs := outputs + [light];
  }

  lemma {:induction false} TotalSnoc(xs: seq<nat>, x: nat)
    ensures Total(xs + [x]) == Total(xs) + x
  {
    assert (xs + [x])[..|xs|] == xs;
  }
}
