/** The snapshots of a round: how close in time they are, and the hash of the round. */
module RoundShape {
  type Hash = nat

  const GAP := 3000000000
  const DAY := 86400000000000
  const FORK := 18677 * DAY  // 2021-02-19T00:00:00Z
  const LIMIT := 0x8000000000000000

  /** Timestamps below the limit, where no sum wraps around. */
  type Time = t: nat | t < LIMIT

  datatype Snap = Snap(hash: Hash, ts: Time, tx: Hash, version: nat)

  // ----- what a round accepts

  function Start(xs: seq<Snap>): nat {
    if xs == [] then LIMIT - 1
    else
      var m, t := Start(xs[..|xs| - 1]), xs[|xs| - 1].ts;
      if t < m then t else m
  }

  function End(xs: seq<Snap>): nat {
    if xs == [] then 0
    else
      var m, t := End(xs[..|xs| - 1]), xs[|xs| - 1].ts;
      if t > m then t else m
  }

  predicate Clashes(c: Snap, s: Snap) {
    || c.hash == s.hash || c.ts == s.ts || c.tx == s.tx
    || (c.ts >= FORK && c.ts / DAY != s.ts / DAY)
  }

  predicate Accepts(xs: seq<Snap>, s: Snap) {
    && (forall c <- xs :: !Clashes(c, s))
    && (Start(xs) <= End(xs) ==>
          !(s.ts < Start(xs) && s.ts + GAP <= End(xs)) && !(s.ts > End(xs) && Start(xs) + GAP <= s.ts))
  }

  /** Any two snapshots are closer than the gap. */
  ghost predicate Close(xs: seq<Snap>) {
    forall a <- xs, b <- xs :: a.ts < b.ts + GAP
  }

  ghost predicate Apart(xs: seq<Snap>) {
    forall i, j | 0 <= i < j < |xs| :: xs[i].hash != xs[j].hash && xs[i].ts != xs[j].ts && xs[i].tx != xs[j].tx
  }

  /** All snapshots after the fork lie on one day. */
  ghost predicate OneDay(xs: seq<Snap>) {
    forall a <- xs, b <- xs :: a.ts >= FORK && b.ts >= FORK ==> a.ts / DAY == b.ts / DAY
  }

  ghost predicate Shape(xs: seq<Snap>) {
    Close(xs) && Apart(xs) && OneDay(xs)
  }

  lemma {:induction false} Ends(xs: seq<Snap>)
    requires xs != []
    ensures (exists a <- xs :: a.ts == Start(xs)) && (exists b <- xs :: b.ts == End(xs))
    ensures forall a <- xs :: Start(xs) <= a.ts <= End(xs)
    decreases |xs|
  {
    var init, last := xs[..|xs| - 1], xs[|xs| - 1];
    assert xs == init + [last];
    if init != [] {
      Ends(init);
    }
    assert last in xs;
    if a :| a in init && a.ts == Start(init) {
      assert a in xs;
    }
    if b :| b in init && b.ts == End(init) {
      assert b in xs;
    }
  }

  /** The gap checks accept exactly the snapshots that keep the round close. */
  lemma {:induction false} AcceptsIff(xs: seq<Snap>, s: Snap)
    requires Close(xs)
    ensures Accepts(xs, s) <==> Close(xs + [s]) && forall c <- xs :: !Clashes(c, s)
  {
    if xs != [] {
      Ends(xs);
      var a :| a in xs && a.ts == Start(xs);
      var b :| b in xs && b.ts == End(xs);
      assert a in xs + [s] && b in xs + [s] && s in xs + [s];
      assert a.ts < b.ts + GAP && b.ts < a.ts + GAP;
    }
  }

  /** In nanoseconds: a snapshot is accepted exactly if hash, time and transaction are new, all others
      are less than three seconds away, and those of 2021-02-19 or later are of the same day. */
  lemma {:induction false} AcceptsExactly(xs: seq<Snap>, s: Snap)
    requires Close(xs)
    ensures Accepts(xs, s) <==>
            forall c <- xs ::
              && c.hash != s.hash && c.ts != s.ts && c.tx != s.tx
              && c.ts < s.ts + 3000000000 && s.ts < c.ts + 3000000000
              && (c.ts >= 1613692800000000000 ==> c.ts / 86400000000000 == s.ts / 86400000000000)
  {
    AcceptsIff(xs, s);
    assert forall c :: c in xs + [s] <==> c in xs || c == s;
    if Close(xs + [s]) {
      forall c <- xs
        ensures c.ts < s.ts + GAP && s.ts < c.ts + GAP
      {
        assert c in xs + [s] && s in xs + [s];
      }
    }
  }

  lemma {:induction false} ShapeKept(xs: seq<Snap>, s: Snap)
    requires Shape(xs) && Accepts(xs, s)
    ensures Shape(xs + [s])
  {
    AcceptsIff(xs, s);
    forall i | 0 <= i < |xs|
      ensures !Clashes(xs[i], s)
    {
      assert xs[i] in xs;
    }
    assert forall a <- xs :: a.ts >= FORK && s.ts >= FORK ==> a.ts / DAY == s.ts / DAY;
  }

  /** A round, from empty, of the snapshots that were accepted one after the other. */
  function Collect(ss: seq<Snap>): seq<Snap> {
    if ss == [] then []
    else
      var xs, s := Collect(ss[..|ss| - 1]), ss[|ss| - 1];
      if Accepts(xs, s) then xs + [s] else xs
  }

  /** Whatever is offered, in whatever order: the round spans less than the gap and, after the
      fork, one day. */
  lemma {:induction false} RoundShapeAlways(ss: seq<Snap>)
    ensures Shape(Collect(ss))
    ensures Collect(ss) != [] ==> End(Collect(ss)) < Start(Collect(ss)) + GAP
    decreases |ss|
  {
    if ss != [] {
      var xs, s := Collect(ss[..|ss| - 1]), ss[|ss| - 1];
      RoundShapeAlways(ss[..|ss| - 1]);
      if Accepts(xs, s) {
        ShapeKept(xs, s);
      }
      if Collect(ss) != [] {
        Ends(Collect(ss));
      }
    }
  }

  /** A round with a snapshot after the fork lies on a single day if and only if none of its
      snapshots is before the fork. */
  lemma {:induction false} SingleDayIff(xs: seq<Snap>, s: Snap)
    requires Shape(xs) && s in xs && s.ts >= FORK
    ensures (forall a <- xs :: a.ts / DAY == s.ts / DAY) <==> (forall a <- xs :: a.ts >= FORK)
  {
    if a :| a in xs && a.ts < FORK {
      assert a.ts / DAY < 18677 <= s.ts / DAY;
    }
  }

  /** The check looks at the day of the snapshots that are there already, so around the fork the
      order of arrival decides. */
  lemma {:induction false} AroundTheFork()
    ensures exists a: Snap, b: Snap ::
              a.ts < FORK <= b.ts && Accepts([], a) && Accepts([a], b) && !Accepts([b], a)
  {
    var a, b := Snap(1, FORK - 1, 1, 2), Snap(2, FORK, 2, 2);
    Ends([a]);
    Ends([b]);
    assert b in [b] && Clashes(b, a);
    assert Accepts([], a) && Accepts([a], b) && !Accepts([b], a);
  }

  // ----- the order of a round

  predicate Earlier(a: Snap, b: Snap) {
    a.ts < b.ts || (a.ts == b.ts && a.hash < b.hash)
  }

  ghost predicate Ordered(xs: seq<Snap>) {
    forall i, j | 0 <= i < j < |xs| :: Earlier(xs[i], xs[j])
  }

  function Place(xs: seq<Snap>, s: Snap): seq<Snap> {
    if xs == [] || Earlier(xs[|xs| - 1], s) then xs + [s] else Place(xs[..|xs| - 1], s) + [xs[|xs| - 1]]
  }

  function Sort(xs: seq<Snap>): seq<Snap> {
    if xs == [] then [] else Place(Sort(xs[..|xs| - 1]), xs[|xs| - 1])
  }

  /** No two snapshots have both timestamp and hash in common. */
  ghost predicate Keyed(xs: seq<Snap>) {
    forall i, j | 0 <= i < j < |xs| :: xs[i].ts != xs[j].ts || xs[i].hash != xs[j].hash
  }

  lemma {:induction false} PlaceOrdered(xs: seq<Snap>, s: Snap)
    requires Ordered(xs) && forall c <- xs :: c.ts != s.ts || c.hash != s.hash
    ensures Ordered(Place(xs, s)) && forall c :: c in Place(xs, s) <==> c in xs || c == s
    ensures |Place(xs, s)| == |xs| + 1
    decreases |xs|
  {
    if xs != [] {
      var init, last := xs[..|xs| - 1], xs[|xs| - 1];
      assert xs == init + [last];
      assert forall c <- init :: c in xs;
      if !Earlier(last, s) {
        PlaceOrdered(init, s);
        assert last in xs;
        forall c <- Place(init, s)
          ensures Earlier(c, last)
        {
          if c != s {
            var i :| 0 <= i < |init| && init[i] == c;
            assert Earlier(xs[i], xs[|xs| - 1]);
          }
        }
      } else {
        forall i | 0 <= i < |xs|
          ensures Earlier(xs[i], s)
        {
          assert i < |xs| - 1 ==> Earlier(xs[i], xs[|xs| - 1]);
        }
      }
    }
  }

  lemma {:induction false} SortOrdered(xs: seq<Snap>)
    requires Keyed(xs)
    ensures Ordered(Sort(xs)) && |Sort(xs)| == |xs| && forall c :: c in Sort(xs) <==> c in xs
    decreases |xs|
  {
    if xs != [] {
      var init, last := xs[..|xs| - 1], xs[|xs| - 1];
      assert xs == init + [last];
      SortOrdered(init);
      forall c <- Sort(init)
        ensures c.ts != last.ts || c.hash != last.hash
      {
        assert c in init;
      }
      PlaceOrdered(Sort(init), last);
    }
  }

  lemma {:induction false} OrderedInit(a: seq<Snap>)
    requires Ordered(a) && a != []
    ensures forall r :: r in a[..|a| - 1] <==> r in a && r != a[|a| - 1]
  {
    var init, last := a[..|a| - 1], a[|a| - 1];
    assert a == init + [last];
    forall i | 0 <= i < |init|
      ensures init[i] != last
    {
      assert Earlier(a[i], a[|a| - 1]);
    }
  }

  lemma {:induction false} OrderedUnique(a: seq<Snap>, b: seq<Snap>)
    requires Ordered(a) && Ordered(b) && |a| == |b| && forall r :: r in a <==> r in b
    ensures a == b
    decreases |a|
  {
    if a != [] {
      var x, y := a[|a| - 1], b[|b| - 1];
      assert x in b && y in a;
      assert x == y;
      OrderedInit(a);
      OrderedInit(b);
      var a', b' := a[..|a| - 1], b[..|b| - 1];
      forall r
        ensures r in a' <==> r in b'
      {
        assert r in a' <==> r in a && r != x;
        assert r in b' <==> r in b && r != y;
      }
      OrderedUnique(a', b');
      assert a == a' + [x] && b == b' + [y];
    }
  }

  /** Sorting forgets the order of arrival. */
  lemma {:induction false} SortForgets(a: seq<Snap>, b: seq<Snap>)
    requires Keyed(a) && multiset(a) == multiset(b)
    ensures Sort(a) == Sort(b)
  {
    KeyedPermuted(a, b);
    SortOrdered(a);
    SortOrdered(b);
    forall r
      ensures r in a <==> r in b
    {
      assert r in multiset(a) <==> r in multiset(b);
    }
    assert |multiset(a)| == |a| && |multiset(b)| == |b|;
    OrderedUnique(Sort(a), Sort(b));
  }

  lemma {:induction false} KeyedPermuted(a: seq<Snap>, b: seq<Snap>)
    requires Keyed(a) && multiset(a) == multiset(b)
    ensures Keyed(b)
  {
    forall i, j | 0 <= i < j < |b|
      ensures b[i].ts != b[j].ts || b[i].hash != b[j].hash
    {
      if b[i] == b[j] {
        TwiceIn(b, i, j);
        KeyedOnce(a, b[i]);
      } else {
        assert b[i] in multiset(b) && b[j] in multiset(b);
        assert b[i] in a && b[j] in a;
      }
    }
  }

  lemma {:induction false} TwiceIn(b: seq<Snap>, i: nat, j: nat)
    requires i < j < |b| && b[i] == b[j]
    ensures multiset(b)[b[i]] >= 2
  {
    assert b == b[..j] + [b[j]] + b[j + 1..];
    assert b[i] in b[..j];
    assert multiset(b) == multiset(b[..j]) + multiset{b[j]} + multiset(b[j + 1..]);
  }

  lemma {:induction false} KeyedOnce(a: seq<Snap>, s: Snap)
    requires Keyed(a)
    ensures multiset(a)[s] <= 1
    decreases |a|
  {
    if a != [] {
      var init, last := a[..|a| - 1], a[|a| - 1];
      assert a == init + [last];
      KeyedOnce(init, s);
      assert forall i | 0 <= i < |init| :: init[i] == a[i] && a[i] != a[|a| - 1];
    }
  }

  // ----- the hash

  const COMMON_ENCODING := 2

  /** Hashes of byte strings, as terms: equal exactly when built the same way. */
  datatype Digest = Seed(node: Hash, number: nat, blake: bool) | Chained(before: Digest, hash: Hash, blakeStep: bool)

  function MaxVersion(xs: seq<Snap>): nat {
    if xs == [] then 0
    else if xs[|xs| - 1].version > MaxVersion(xs[..|xs| - 1]) then xs[|xs| - 1].version
    else MaxVersion(xs[..|xs| - 1])
  }

  function Fold(seed: Digest, xs: seq<Snap>, blake: bool): Digest {
    if xs == [] then seed else Chained(Fold(seed, xs[..|xs| - 1], blake), xs[|xs| - 1].hash, blake)
  }

  function RoundHash(node: Hash, number: nat, xs: seq<Snap>): Digest {
    var sorted := Sort(xs);
    var blake := MaxVersion(sorted) >= COMMON_ENCODING;
    Fold(Seed(node, number, blake), sorted, blake)
  }

  /** The hash does not depend on the order in which the snapshots came. */
  lemma {:induction false} HashForgets(node: Hash, number: nat, a: seq<Snap>, b: seq<Snap>)
    requires Shape(a) && multiset(a) == multiset(b)
    ensures RoundHash(node, number, a) == RoundHash(node, number, b)
  {
    SortForgets(a, b);
  }

  /** Rounds of the same chain and number with the same hash hold the same snapshots. */
  lemma {:induction false} FoldInjective(s: Digest, t: Digest, xs: seq<Snap>, ys: seq<Snap>, p: bool, q: bool)
    requires s.Seed? && t.Seed? && Fold(s, xs, p) == Fold(t, ys, q)
    ensures s == t && |xs| == |ys| && forall i | 0 <= i < |xs| :: xs[i].hash == ys[i].hash
    decreases |xs|
  {
    if xs != [] && ys != [] {
      FoldInjective(s, t, xs[..|xs| - 1], ys[..|ys| - 1], p, q);
    }
  }

  function SeedOf(d: Digest): Digest {
    if d.Seed? then d else SeedOf(d.before)
  }

  /** The hashes that were chained, in order, and with which function. */
  function Chain(d: Digest): seq<(Hash, bool)> {
    if d.Seed? then [] else Chain(d.before) + [(d.hash, d.blakeStep)]
  }

  lemma {:induction false} FoldSpelled(seed: Digest, xs: seq<Snap>, blake: bool)
    requires seed.Seed?
    ensures SeedOf(Fold(seed, xs, blake)) == seed
    ensures var c := Chain(Fold(seed, xs, blake));
            |c| == |xs| && forall i | 0 <= i < |xs| :: c[i] == (xs[i].hash, blake)
    decreases |xs|
  {
    if xs != [] {
      FoldSpelled(seed, xs[..|xs| - 1], blake);
    }
  }

  /** The round hash starts from chain and number and takes the hash of every snapshot, the earlier
      ones first; all of it with the newer hash function exactly if some snapshot is of version 2. */
  lemma {:induction false} HashSpelled(node: Hash, number: nat, xs: seq<Snap>) returns (order: seq<Snap>)
    requires Keyed(xs)
    ensures |order| == |xs| && (forall s :: s in order <==> s in xs)
    ensures forall i, j | 0 <= i < j < |order| ::
              order[i].ts < order[j].ts || (order[i].ts == order[j].ts && order[i].hash < order[j].hash)
    ensures var d, blake := RoundHash(node, number, xs), exists s <- xs :: s.version >= 2;
            && SeedOf(d) == Seed(node, number, blake) && |Chain(d)| == |xs|
            && forall i | 0 <= i < |xs| :: Chain(d)[i] == (order[i].hash, blake)
  {
    order := Sort(xs);
    SortOrdered(xs);
    VersionBound(order);
    forall i, j | 0 <= i < j < |order|
      ensures order[i].ts < order[j].ts || (order[i].ts == order[j].ts && order[i].hash < order[j].hash)
    {
      assert Earlier(order[i], order[j]);
    }
    var blake := MaxVersion(order) >= COMMON_ENCODING;
    assert blake <==> exists s <- xs :: s.version >= 2;
    FoldSpelled(Seed(node, number, blake), order, blake);
  }

  // ----- the code

  lemma {:induction false} ShapeKeyed(xs: seq<Snap>)
    requires Shape(xs)
    ensures Keyed(xs)
  {
  }

  /** The ends of a sorted round. */
  lemma {:induction false} SortEnds(xs: seq<Snap>)
    requires xs != [] && Keyed(xs)
    ensures Sort(xs) != [] && Sort(xs)[0].ts == Start(xs) && Sort(xs)[|Sort(xs)| - 1].ts == End(xs)
  {
    SortOrdered(xs);
    Ends(xs);
    var ys := Sort(xs);
    assert ys[0] in xs && ys[|ys| - 1] in xs;
    var a :| a in xs && a.ts == Start(xs);
    var b :| b in xs && b.ts == End(xs);
    assert a in ys && b in ys;
    var i :| 0 <= i < |ys| && ys[i] == a;
    var j :| 0 <= j < |ys| && ys[j] == b;
    assert i > 0 ==> Earlier(ys[0], ys[i]);
    assert j < |ys| - 1 ==> Earlier(ys[j], ys[|ys| - 1]);
  }

  lemma {:induction false} VersionBound(xs: seq<Snap>)
    ensures forall s <- xs :: s.version <= MaxVersion(xs)
    ensures xs != [] ==> exists s <- xs :: s.version == MaxVersion(xs)
    decreases |xs|
  {
    if xs != [] {
      var init, last := xs[..|xs| - 1], xs[|xs| - 1];
      assert xs == init + [last];
      VersionBound(init);
      assert last in xs;
      if init != [] {
        var s :| s in init && s.version == MaxVersion(init);
        assert s in xs;
      }
    }
  }

  method HighestVersion(sorted: seq<Snap>) returns (version: nat)
    requires sorted != []
    ensures version == MaxVersion(sorted) && forall s <- sorted :: s.version <= version
  {
    version := sorted[0].version;
    for n := 0 to |sorted|
      invariant version == if n == 0 then sorted[0].version else MaxVersion(sorted[..n])
    {
      assert sorted[..n + 1][..n] == sorted[..n];
      if sorted[n].version > version {
        version := sorted[n].version;
      }
    }
    assert sorted[..|sorted|] == sorted;
    VersionBound(sorted);
  }

  /** Folds the snapshots into the seed; the panics on a higher version and a later timestamp are
      not reached. */
  method FoldHashes(seed: Digest, sorted: seq<Snap>, version: nat, end: nat, blake: bool) returns (hash: Digest)
    requires forall s <- sorted :: s.version <= version && s.ts <= end
    ensures hash == Fold(seed, sorted, blake)
  {
    hash := seed;
    for n := 0 to |sorted|
      invariant hash == Fold(seed, sorted[..n], blake)
    {
      assert sorted[..n + 1][..n] == sorted[..n];
      assert sorted[n].version <= version && sorted[n].ts <= end;  // or panic
      hash := Chained(hash, sorted[n].hash, blake);
    }
    assert sorted[..|sorted|] == sorted;
  }

  /** The kernel's hash of a round.  For every round a chain can collect none of its panics is
      reached. */
  method ComputeRoundHash(node: Hash, number: nat, snapshots: seq<Snap>) returns (start: nat, end: nat, hash: Digest)
    requires snapshots != [] && Shape(snapshots)
    ensures start == Start(snapshots) && end == End(snapshots) && end < start + GAP
    ensures hash == RoundHash(node, number, snapshots)
  {
    var sorted := Sort(snapshots);
    SortedRound(snapshots, sorted);
    start, end := sorted[0].ts, sorted[|sorted| - 1].ts;
    assert end < start + GAP;  // or panic
    var version := HighestVersion(sorted);
    var blake := version >= COMMON_ENCODING;
    hash := FoldHashes(Seed(node, number, blake), sorted, version, end, blake);
  }

  lemma {:induction false} SortedRound(xs: seq<Snap>, sorted: seq<Snap>)
    requires xs != [] && Shape(xs) && sorted == Sort(xs)
    ensures sorted != [] && sorted[0].ts == Start(xs) && sorted[|sorted| - 1].ts == End(xs) < Start(xs) + GAP
    ensures forall s <- sorted :: s.ts <= End(xs)
  {
    ShapeKeyed(xs);
    SortOrdered(xs);
    SortEnds(xs);
    Ends(xs);
  }

  /** A snapshot with its place in the topological order, as the store keeps it. */
  datatype Stored = Stored(snapshot: Snap, order: nat)

  function Plain(ts: seq<Stored>): (r: seq<Snap>)
    ensures |r| == |ts| && forall i | 0 <= i < |ts| :: r[i] == ts[i].snapshot
  {
    seq(|ts|, i requires 0 <= i < |ts| => ts[i].snapshot)
  }

  lemma {:induction false} PlainAppend(a: seq<Stored>, b: seq<Stored>)
    ensures Plain(a + b) == Plain(a) + Plain(b)
  {
  }

  /** No entry is earlier than the one before it. */
  ghost predicate Ascending(ts: seq<Stored>) {
    forall i, j | 0 <= i < j < |ts| :: !Earlier(ts[j].snapshot, ts[i].snapshot)
  }

  /** Puts an entry behind all that it is not earlier than. */
  method PutInOrder(ts: seq<Stored>, x: Stored) returns (r: seq<Stored>)
    requires Ascending(ts)
    ensures Ascending(r) && multiset(r) == multiset(ts) + multiset{x}
    ensures multiset(Plain(r)) == multiset(Plain(ts)) + multiset{x.snapshot}
  {
    var k := |ts|;
    while k > 0 && Earlier(x.snapshot, ts[k - 1].snapshot)
      invariant 0 <= k <= |ts| && forall i | k <= i < |ts| :: Earlier(x.snapshot, ts[i].snapshot)
    {
      k := k - 1;
    }
    r := ts[..k] + [x] + ts[k..];
    PutAt(ts, x, k);
  }

  lemma {:induction false} PutAt(ts: seq<Stored>, x: Stored, k: nat)
    requires k <= |ts| && Ascending(ts) && (k > 0 ==> !Earlier(x.snapshot, ts[k - 1].snapshot))
    requires forall i | k <= i < |ts| :: Earlier(x.snapshot, ts[i].snapshot)
    ensures var r := ts[..k] + [x] + ts[k..];
            && Ascending(r) && multiset(r) == multiset(ts) + multiset{x}
            && multiset(Plain(r)) == multiset(Plain(ts)) + multiset{x.snapshot}
  {
    PutAscends(ts, x, k, ts[..k] + [x] + ts[k..]);
    PutAdds(ts, x, k);
  }

  lemma {:induction false} PutAscends(ts: seq<Stored>, x: Stored, k: nat, r: seq<Stored>)
    requires k <= |ts| && Ascending(ts) && (k > 0 ==> !Earlier(x.snapshot, ts[k - 1].snapshot))
    requires (forall i | k <= i < |ts| :: Earlier(x.snapshot, ts[i].snapshot)) && r == ts[..k] + [x] + ts[k..]
    ensures Ascending(r)
  {
    forall i, j | 0 <= i < j < |r|
      ensures !Earlier(r[j].snapshot, r[i].snapshot)
    {
      var a, b := if i < k then i else i - 1, if j < k then j else j - 1;
      assert i != k ==> r[i] == ts[a];
      assert j != k ==> r[j] == ts[b];
      if i != k && j != k {
        assert !Earlier(ts[b].snapshot, ts[a].snapshot);
      } else if j == k {
        assert i < k - 1 ==> !Earlier(ts[k - 1].snapshot, ts[i].snapshot);
      }
    }
  }

  lemma {:induction false} PutAdds(ts: seq<Stored>, x: Stored, k: nat)
    requires k <= |ts|
    ensures var r := ts[..k] + [x] + ts[k..];
            multiset(r) == multiset(ts) + multiset{x} &&
            multiset(Plain(r)) == multiset(Plain(ts)) + multiset{x.snapshot}
  {
    assert ts == ts[..k] + ts[k..];
    PlainAppend(ts[..k], ts[k..]);
    PlainAppend(ts[..k] + [x], ts[k..]);
    PlainAppend(ts[..k], [x]);
    assert Plain([x]) == [x.snapshot];
  }

  /** The store's own sort, by timestamp and then by hash. */
  method SortStored(topos: seq<Stored>) returns (r: seq<Stored>)
    ensures Ascending(r) && multiset(r) == multiset(topos) && multiset(Plain(r)) == multiset(Plain(topos))
  {
    r := [];
    for n := 0 to |topos|
      invariant Ascending(r) && multiset(r) == multiset(topos[..n]) && multiset(Plain(r)) == multiset(Plain(topos[..n]))
    {
      assert topos[..n + 1] == topos[..n] + [topos[n]];
      PlainAppend(topos[..n], [topos[n]]);
      assert Plain([topos[n]]) == [topos[n].snapshot];
      r := PutInOrder(r, topos[n]);
    }
    assert topos[..|topos|] == topos;
  }

  /** Sorted either way, the same snapshots come out in the same order. */
  lemma {:induction false} SortsAgree(sorted: seq<Stored>, cache: seq<Snap>)
    requires Keyed(cache) && Ascending(sorted) && multiset(Plain(sorted)) == multiset(cache)
    ensures Plain(sorted) == Sort(cache)
  {
    var a := Plain(sorted);
    KeyedPermuted(cache, a);
    forall i, j | 0 <= i < j < |a|
      ensures Earlier(a[i], a[j])
    {
      assert !Earlier(sorted[j].snapshot, sorted[i].snapshot);
    }
    SortOrdered(cache);
    SameMembers(a, cache);
    OrderedUnique(a, Sort(cache));
  }

  lemma {:induction false} PlainStep(ts: seq<Stored>, n: nat)
    requires n < |ts|
    ensures Plain(ts[..n + 1]) == Plain(ts[..n]) + [ts[n].snapshot]
    ensures MaxVersion(Plain(ts[..n + 1])) ==
            var m := MaxVersion(Plain(ts[..n])); if ts[n].snapshot.version > m then ts[n].snapshot.version else m
    ensures forall seed: Digest, blake: bool ::
              Fold(seed, Plain(ts[..n + 1]), blake) ==
              Chained(Fold(seed, Plain(ts[..n]), blake), ts[n].snapshot.hash, blake)
  {
    var a, b := Plain(ts[..n]), Plain(ts[..n + 1]);
    assert b == a + [ts[n].snapshot];
    assert b[..|b| - 1] == a;
  }

  method HighestStored(sorted: seq<Stored>) returns (version: nat)
    requires sorted != []
    ensures version == MaxVersion(Plain(sorted)) &&
            forall i | 0 <= i < |sorted| :: sorted[i].snapshot.version <= version
  {
    version := sorted[0].snapshot.version;
    for n := 0 to |sorted|
      invariant version == if n == 0 then sorted[0].snapshot.version else MaxVersion(Plain(sorted[..n]))
    {
      PlainStep(sorted, n);
      if sorted[n].snapshot.version > version {
        version := sorted[n].snapshot.version;
      }
    }
    assert sorted[..|sorted|] == sorted;
    VersionBound(Plain(sorted));
    assert forall i | 0 <= i < |sorted| :: Plain(sorted)[i] in Plain(sorted);
  }

  /** The store's own fold, with its two panics, which are not reached. */
  method FoldStored(node: Hash, number: nat, sorted: seq<Stored>, version: nat, end: nat) returns (hash: Digest)
    requires forall i | 0 <= i < |sorted| :: sorted[i].snapshot.version <= version && sorted[i].snapshot.ts <= end
    ensures var blake := version >= COMMON_ENCODING; hash == Fold(Seed(node, number, blake), Plain(sorted), blake)
  {
    ghost var seed := Seed(node, number, version >= COMMON_ENCODING);
    if version < COMMON_ENCODING {
      hash := Seed(node, number, false);
    } else {
      hash := Seed(node, number, true);
    }
    for n := 0 to |sorted|
      invariant hash == Fold(seed, Plain(sorted[..n]), version >= COMMON_ENCODING)
    {
      PlainStep(sorted, n);
      assert sorted[n].snapshot.version <= version;  // or panic
      assert sorted[n].snapshot.ts <= end;  // or panic
      if version < COMMON_ENCODING {
        hash := Chained(hash, sorted[n].snapshot.hash, false);
      } else {
        hash := Chained(hash, sorted[n].snapshot.hash, true);
      }
    }
    assert sorted[..|sorted|] == sorted;
  }

  /** The store's own copy of the hash, used to validate the graph: its own sort, version scan, seed
      and fold agree with the kernel's for the same snapshots, in whatever order the store lists
      them. */
  method StoredRoundHash(node: Hash, number: nat, topos: seq<Stored>, ghost cache: seq<Snap>)
    returns (start: nat, end: nat, hash: Digest)
    requires cache != [] && Shape(cache) && multiset(Plain(topos)) == multiset(cache)
    ensures start == Start(cache) && end == End(cache)
    ensures hash == RoundHash(node, number, cache)
  {
    var sorted := SortStored(topos);
    ShapeKeyed(cache);
    SortsAgree(sorted, cache);
    SortedRound(cache, Plain(sorted));
    start, end := sorted[0].snapshot.ts, sorted[|sorted| - 1].snapshot.ts;
    assert end < start + GAP;  // or panic
    var version := HighestStored(sorted);
    assert forall i | 0 <= i < |sorted| :: Plain(sorted)[i] in Plain(sorted);
    hash := FoldStored(node, number, sorted, version, end);
  }

  lemma {:induction false} SameMembers(a: seq<Snap>, b: seq<Snap>)
    requires multiset(a) == multiset(b)
    ensures |a| == |b| && forall r :: r in a <==> r in b
  {
    assert |multiset(a)| == |a| && |multiset(b)| == |b|;
    forall r
      ensures r in a <==> r in b
    {
      assert r in multiset(a) <==> r in multiset(b);
    }
  }

  lemma {:induction false} ShapePermuted(a: seq<Snap>, b: seq<Snap>)
    requires Shape(a) && multiset(a) == multiset(b)
    ensures Shape(b)
  {
    SameMembers(a, b);
    KeyedPermuted(a, b);
    forall i, j | 0 <= i < j < |b|
      ensures b[i].hash != b[j].hash && b[i].ts != b[j].ts && b[i].tx != b[j].tx
    {
      assert b[i] in a && b[j] in a && b[i] != b[j];
      var x :| 0 <= x < |a| && a[x] == b[i];
      var y :| 0 <= y < |a| && a[y] == b[j];
      assert x < y || y < x;
    }
  }

  lemma {:induction false} EndsPermuted(a: seq<Snap>, b: seq<Snap>)
    requires a != [] && multiset(a) == multiset(b)
    ensures Start(a) == Start(b) && End(a) == End(b)
  {
    SameMembers(a, b);
    Ends(a);
    Ends(b);
  }

  class CacheRound {
    var snapshots: seq<Snap>

    constructor ()
      ensures snapshots == []
    {
      snapshots := [];
    }

    /** Sorts the round in place and returns its ends; the panic on a wide round is never reached. */
    method Gap() returns (start: nat, end: nat)
      requires Shape(snapshots)
      modifies this
      ensures snapshots == Sort(old(snapshots)) && multiset(snapshots) == multiset(old(snapshots))
      ensures start == Start(old(snapshots)) && end == End(old(snapshots))
    {
      start, end := LIMIT - 1, 0;
      if |snapshots| == 0 {
        return;
      }
      SortedRound(snapshots, Sort(snapshots));
      SortKeepsAll(snapshots);
      snapshots := Sort(snapshots);
      start, end := snapshots[0].ts, snapshots[|snapshots| - 1].ts;
      assert end < start + GAP;  // or panic
    }

    /** Decides on a snapshot and, on success, adds it if asked to. */
    method ValidateSnapshot(s: Snap, add: bool) returns (ok: bool)
      requires Shape(snapshots)
      modifies this
      ensures ok == Accepts(old(snapshots), s)
      ensures Shape(snapshots)
      ensures multiset(snapshots) == multiset(old(snapshots)) + (if ok && add then multiset{s} else multiset{})
    {
      ghost var xs := snapshots;
      for n := 0 to |snapshots|
        invariant snapshots == xs && forall c <- snapshots[..n] :: !Clashes(c, s)
      {
        if Clashes(snapshots[n], s) {
          assert snapshots[n] in snapshots;
          return false;
        }
        assert snapshots[..n + 1] == snapshots[..n] + [snapshots[n]];
      }
      assert snapshots[..|snapshots|] == snapshots;
      var start, end := Gap();
      ShapePermuted(xs, snapshots);
      if start <= end {
        if s.ts < start && s.ts + GAP <= end {
          return false;
        }
        if s.ts > end && start + GAP <= s.ts {
          return false;
        }
      }
      if add {
        AcceptsPermuted(xs, snapshots, s);
        ShapeKept(snapshots, s);
        snapshots := snapshots + [s];
      }
      return true;
    }
  }

  lemma {:induction false} PlaceKeepsAll(xs: seq<Snap>, s: Snap)
    ensures multiset(Place(xs, s)) == multiset(xs) + multiset{s}
    decreases |xs|
  {
    if xs != [] && !Earlier(xs[|xs| - 1], s) {
      PlaceKeepsAll(xs[..|xs| - 1], s);
      assert xs == xs[..|xs| - 1] + [xs[|xs| - 1]];
    }
  }

  lemma {:induction false} SortKeepsAll(xs: seq<Snap>)
    ensures multiset(Sort(xs)) == multiset(xs)
    decreases |xs|
  {
    if xs != [] {
      SortKeepsAll(xs[..|xs| - 1]);
      PlaceKeepsAll(Sort(xs[..|xs| - 1]), xs[|xs| - 1]);
      assert xs == xs[..|xs| - 1] + [xs[|xs| - 1]];
    }
  }

  lemma {:induction false} AcceptsPermuted(a: seq<Snap>, b: seq<Snap>, s: Snap)
    requires multiset(a) == multiset(b)
    ensures Accepts(a, s) <==> Accepts(b, s)
  {
    SameMembers(a, b);
    if a != [] {
      EndsPermuted(a, b);
    }
  }
}
