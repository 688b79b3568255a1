/** The quorum rule. */
module Quorum {
  const KERNEL_MINIMUM_NODES := 7
  const UNREACHABLE := 1000

  /** Signers needed over a base of `base` nodes. */
  function Threshold(base: nat): nat {
    if base < KERNEL_MINIMUM_NODES then UNREACHABLE else base * 2 / 3 + 1
  }

  lemma {:induction false} UnionBound<T>(a: set<T>, b: set<T>)
    ensures |a + b| + |a * b| == |a| + |b|
  {
    assert a == (a - b) + a * b;
    assert a + b == (a - b) + b;
  }

  lemma {:induction false} SubsetSize<T>(a: set<T>, b: set<T>)
    requires a <= b
    ensures |a| <= |b|
  {
    assert b == a + (b - a);
  }

  /** Two sets of signers that both reach the threshold share more than a third of the base. */
  lemma {:induction false} QuorumsOverlap<T>(keys: set<T>, base: nat, a: set<T>, b: set<T>)
    requires |keys| <= base
    requires a <= keys && b <= keys && |a| >= Threshold(base) && |b| >= Threshold(base)
    ensures base >= KERNEL_MINIMUM_NODES && 3 * |a * b| > base
  {
    UnionBound(a, b);
    SubsetSize(a + b, keys);
    SubsetSize(a, keys);
  }

  // ----- one key beyond the base

  /** With one key more than the base they still do, unless the base is one more than a multiple
      of three. */
  lemma {:induction false} TightOverlap<T>(keys: set<T>, base: nat, a: set<T>, b: set<T>)
    requires Tight(|keys|, base)
    requires a <= keys && b <= keys && |a| >= Threshold(base) && |b| >= Threshold(base)
    ensures base >= KERNEL_MINIMUM_NODES && 3 * |a * b| > base
  {
    UnionBound(a, b);
    SubsetSize(a + b, keys);
    SubsetSize(a, keys);
  }

  lemma {:induction false} Part<T>(s: set<T>, n: nat) returns (p: set<T>)
    requires n <= |s|
    ensures p <= s && |p| == n
  {
    if n == 0 {
      p := {};
    } else {
      var x :| x in s;
      var q := Part(s - {x}, n - 1);
      p := q + {x};
    }
  }

  ghost predicate AllOverlap<T(!new)>(keys: set<T>, base: nat) {
    forall a, b | a <= keys && b <= keys && |a| >= Threshold(base) && |b| >= Threshold(base) :: 3 * |a * b| > base
  }

  /** Two quorums can be chosen to share no more than they must. */
  lemma {:induction false} ThinOverlap<T>(keys: set<T>, n: nat) returns (a: set<T>, b: set<T>)
    requires n <= |keys|
    ensures a <= keys && b <= keys && |a| == |b| == n && |a * b| == if 2 * n > |keys| then 2 * n - |keys| else 0
  {
    var m := if 2 * n > |keys| then 2 * n - |keys| else 0;
    a := Part(keys, n);
    var rest := keys - a;
    UnionBound(a, rest);
    assert a + rest == keys && a * rest == {};
    var shared := Part(a, m);
    var other := Part(rest, n - m);
    b := shared + other;
    UnionBound(shared, other);
    assert shared * other == {};
    assert a * b == shared;
  }

  /** Keys that any two quorums share more than a third of the base of. */
  predicate Tight(keys: nat, base: nat) {
    keys <= base || (keys == base + 1 && base % 3 != 1)
  }

  /** Any set of keys: quorums always share more than a third of the base exactly if there are no
      more keys than the base, or one more and the base is not one more than a multiple of three. */
  lemma {:induction false} OverlapIff<T(!new)>(keys: set<T>, base: nat)
    requires base >= KERNEL_MINIMUM_NODES && Threshold(base) <= |keys|
    ensures AllOverlap(keys, base) <==> Tight(|keys|, base)
  {
    if Tight(|keys|, base) {
      forall a, b | a <= keys && b <= keys && |a| >= Threshold(base) && |b| >= Threshold(base)
        ensures 3 * |a * b| > base
      {
        TightOverlap(keys, base, a, b);
      }
    } else {
      var a, b := ThinOverlap(keys, Threshold(base));
    }
  }
}
