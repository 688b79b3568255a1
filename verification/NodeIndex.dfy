/** The node lists the kernel precomputes from the election history, the index each node gets in
    them, and the keys and threshold of a collective signature. */
module NodeIndex {
  import opened Election
  import opened NodeStore
  import opened Quorum

  /** 10 round gaps of 3 seconds. */
  const REFERENCE_THRESHOLD := 30000000000

  datatype CNode = CNode(record: Record, index: nat)

  datatype NodeStateSequence = NodeStateSequence(ts: nat, nodes: seq<CNode>)

  // ----- the direct definition

  predicate Listed(h: History, only: bool, i: nat)
    requires i < |h|
  {
    Current(h, i) && (only ==> h[i].state.Accepted?)
  }

  /** The current record of each node among the first `n` records of `h`, in order. */
  function Listing(h: History, only: bool, n: nat): seq<Record>
    requires n <= |h|
  {
    if n == 0 then [] else Listing(h, only, n - 1) + (if Listed(h, only, n - 1) then [h[n - 1]] else [])
  }

  predicate Eligible(r: Record) {
    r.state.Accepted? || r.state.Pledging?
  }

  function EligibleCount(rs: seq<Record>): nat {
    if rs == [] then 0 else EligibleCount(rs[..|rs| - 1]) + (if Eligible(rs[|rs| - 1]) then 1 else 0)
  }

  /** Each node's index is the number of accepted or pledging nodes before it. */
  function Indexed(rs: seq<Record>): seq<CNode> {
    if rs == [] then [] else Indexed(rs[..|rs| - 1]) + [CNode(rs[|rs| - 1], EligibleCount(rs[..|rs| - 1]))]
  }

  function NodesAt(h: History, threshold: nat, only: bool): seq<Record> {
    var p := Before(h, threshold);
    Listing(p, only, |p|)
  }

  function Sequence(h: History, threshold: nat, only: bool): seq<CNode> {
    Indexed(NodesAt(h, threshold, only))
  }

  lemma {:induction false} IndexedAt(rs: seq<Record>, k: nat)
    requires k < |rs|
    ensures |Indexed(rs)| == |rs| && Indexed(rs)[k] == CNode(rs[k], EligibleCount(rs[..k]))
    decreases |rs|
  {
    if |rs| > 1 {
      var init := rs[..|rs| - 1];
      IndexedAt(init, if k < |init| then k else 0);
      if k < |init| {
        assert rs[..k] == init[..k];
      }
    }
  }

  lemma {:induction false} ListingMeaning(h: History, only: bool, n: nat)
    requires n <= |h|
    ensures forall r :: r in Listing(h, only, n) <==> exists i | 0 <= i < n :: Listed(h, only, i) && h[i] == r
  {
    if n > 0 {
      ListingMeaning(h, only, n - 1);
    }
  }

  lemma {:induction false} ListingSorted(h: History, only: bool, n: nat)
    requires n <= |h| && Sorted(h)
    ensures Sorted(Listing(h, only, n))
  {
    if n > 0 {
      ListingSorted(h, only, n - 1);
      ListingMeaning(h, only, n - 1);
      var pre := Listing(h, only, n - 1);
      forall i | 0 <= i < |pre|
        ensures Precedes(pre[i], h[n - 1])
      {
        assert pre[i] in pre;
      }
    }
  }

  lemma {:induction false} SortedInit(a: seq<Record>)
    requires Sorted(a) && a != []
    ensures forall r :: r in a[..|a| - 1] <==> r in a && r != a[|a| - 1]
  {
    var init, last := a[..|a| - 1], a[|a| - 1];
    assert a == init + [last];
    forall i | 0 <= i < |init|
      ensures init[i] != last
    {
      assert Precedes(a[i], a[|a| - 1]);
    }
  }

  lemma {:induction false} HasMember(a: seq<Record>)
    ensures a == [] || a[0] in a
  {
  }

  /** A strictly ordered list is determined by its elements. */
  lemma {:induction false} SortedUnique(a: seq<Record>, b: seq<Record>)
    requires Sorted(a) && Sorted(b) && forall r :: r in a <==> r in b
    ensures a == b
    decreases |a|
  {
    HasMember(a);
    HasMember(b);
    if a != [] && b != [] {
      var x, y := a[|a| - 1], b[|b| - 1];
      assert x in b && y in a;
      assert x == y;
      SortedInit(a);
      SortedInit(b);
      var a', b' := a[..|a| - 1], b[..|b| - 1];
      forall r
        ensures r in a' <==> r in b'
      {
        assert r in a' <==> r in a && r != x;
        assert r in b' <==> r in b && r != y;
      }
      SortedUnique(a', b');
      assert a == a[..|a| - 1] + [x] && b == b[..|b| - 1] + [y];
    }
  }

  // ----- the code

  /** The filter holds the current record of every node in `p`. */
  ghost predicate HoldsCurrent(p: History, filter: map<Id, Record>) {
    && (forall id <- filter :: exists i | 0 <= i < |p| :: Current(p, i) && p[i] == filter[id] && p[i].id == id)
    && (forall i | 0 <= i < |p| :: p[i].id in filter)
  }

  /** One pass in which later records overwrite earlier ones. */
  method LastRecords(h: History, threshold: nat) returns (filter: map<Id, Record>)
    requires Sorted(h)
    ensures HoldsCurrent(Before(h, threshold), filter)
  {
    BeforeSorted(h, threshold);
    ghost var p := Before(h, threshold);
    filter := map[];
    var n := 0;
    while n < |h| && h[n].ts < threshold
      invariant n <= |p| && HoldsCurrent(h[..n], filter)
    {
      FilterStep(h, n, filter);
      filter := filter[h[n].id := h[n]];
      n := n + 1;
    }
    assert n == |p| && h[..n] == p;
  }

  lemma {:induction false} FilterStep(h: History, n: nat, filter: map<Id, Record>)
    requires n < |h| && HoldsCurrent(h[..n], filter)
    ensures HoldsCurrent(h[..n + 1], filter[h[n].id := h[n]])
  {
    var p, p', filter' := h[..n], h[..n + 1], filter[h[n].id := h[n]];
    StillCurrent(h, n);
    forall id <- filter'
      ensures exists i | 0 <= i < |p'| :: Current(p', i) && p'[i] == filter'[id] && p'[i].id == id
    {
      if id == h[n].id {
        assert Current(p', n) && p'[n] == filter'[id];
      } else {
        var i :| 0 <= i < |p| && Current(p, i) && p[i] == filter[id] && p[i].id == id;
        assert Current(p', i) && p'[i] == p[i];
      }
    }
    assert forall i | 0 <= i < n :: p'[i] == p[i];
  }

  /** The map is listed in any order and sorted. */
  method SortRecords(filter: map<Id, Record>, only: bool) returns (rs: seq<Record>)
    requires forall id <- filter :: filter[id].id == id
    ensures Sorted(rs)
    ensures forall r :: r in rs <==> r.id in filter && filter[r.id] == r && (only ==> r.state.Accepted?)
  {
    var rest := filter.Keys;
    rs := [];
    while rest != {}
      invariant Sorted(rs) && rest <= filter.Keys
      invariant forall r :: r in rs <==>
                r.id in filter && r.id !in rest && filter[r.id] == r && (only ==> r.state.Accepted?)
      decreases rest
    {
      var id :| id in rest;
      var r := filter[id];
      if !only || r.state.Accepted? {
        InsertSorted(rs, r);
        rs := Insert(rs, r);
      }
      rest := rest - {id};
    }
  }

  method NumberNodes(rs: seq<Record>) returns (nodes: seq<CNode>)
    ensures nodes == Indexed(rs)
    ensures |nodes| == |rs| && forall k | 0 <= k < |rs| :: nodes[k] == CNode(rs[k], EligibleCount(rs[..k]))
  {
    nodes := [];
    var index := 0;
    for i := 0 to |rs|
      invariant nodes == Indexed(rs[..i]) && index == EligibleCount(rs[..i])
    {
      assert rs[..i + 1][..i] == rs[..i];
      nodes := nodes + [CNode(rs[i], index)];
      if Eligible(rs[i]) {
        index := index + 1;
      }
    }
    assert rs[..|rs|] == rs;
    forall k | 0 <= k < |rs|
      ensures |nodes| == |rs| && nodes[k] == CNode(rs[k], EligibleCount(rs[..k]))
    {
      IndexedAt(rs, k);
    }
  }

  /** The last record of each node, sorted and numbered. */
  method NodeSequenceWithoutState(h: History, threshold: nat, only: bool) returns (nodes: seq<CNode>)
    requires Sorted(h)
    ensures nodes == Sequence(h, threshold, only)
  {
    BeforeSorted(h, threshold);
    var filter := LastRecords(h, threshold);
    var rs := SortRecords(filter, only);
    FilterIsListing(Before(h, threshold), only, filter, rs);
    nodes := NumberNodes(rs);
  }

  lemma {:induction false} StillCurrent(h: History, n: nat)
    requires n < |h|
    ensures forall i | 0 <= i < n && Current(h[..n], i) && h[i].id != h[n].id :: Current(h[..n + 1], i)
  {
    assert h[..n + 1] == h[..n] + [h[n]];
    forall i | 0 <= i < n && Current(h[..n], i) && h[i].id != h[n].id
      ensures Current(h[..n + 1], i)
    {
      CurrentStep(h[..n], h[n], i);
    }
  }

  lemma {:induction false} FilterIsListing(p: History, only: bool, filter: map<Id, Record>, rs: seq<Record>)
    requires Sorted(p) && Sorted(rs)
    requires HoldsCurrent(p, filter)
    requires forall r :: r in rs <==> r.id in filter && filter[r.id] == r && (only ==> r.state.Accepted?)
    ensures rs == Listing(p, only, |p|)
  {
    ListingSorted(p, only, |p|);
    ListingMeaning(p, only, |p|);
    forall r
      ensures r in rs <==> r in Listing(p, only, |p|)
    {
      if i :| 0 <= i < |p| && Listed(p, only, i) && p[i] == r {
        var j :| 0 <= j < |p| && Current(p, j) && p[j] == filter[r.id] && p[j].id == r.id;
        assert i == j;
      }
    }
    SortedUnique(rs, Listing(p, only, |p|));
  }

  ghost predicate PrecomputedAt(h: History, e: NodeStateSequence, i: nat, only: bool)
    requires i < |h|
  {
    e == NodeStateSequence(h[i].ts, Sequence(h, h[i].ts + 1, only))
  }

  ghost predicate Precomputed(h: History, seqs: seq<NodeStateSequence>, only: bool) {
    |seqs| == |h| && forall i | 0 <= i < |h| :: PrecomputedAt(h, seqs[i], i, only)
  }

  method BuildNodeStateSequences(h: History, only: bool) returns (seqs: seq<NodeStateSequence>)
    requires Sorted(h)
    ensures Precomputed(h, seqs, only)
  {
    seqs := [];
    for i := 0 to |h|
      invariant |seqs| == i && forall j | 0 <= j < i :: PrecomputedAt(h, seqs[j], j, only)
    {
      var nodes := NodeSequenceWithoutState(h, h[i].ts + 1, only);
      seqs := seqs + [NodeStateSequence(h[i].ts, nodes)];
    }
  }

  /** Looking a threshold up in the precomputed sequences gives what the direct computation for
      that threshold gives, for every sorted history and every threshold. */
  method NodesListWithoutState(ghost h: History, seqs: seq<NodeStateSequence>, threshold: nat, ghost only: bool)
    returns (nodes: seq<CNode>)
    requires Sorted(h) && Precomputed(h, seqs, only)
    ensures nodes == Sequence(h, threshold, only)
  {
    var i := |seqs|;
    while i > 0
      invariant 0 <= i <= |h| && forall j | i <= j < |h| :: h[j].ts >= threshold
    {
      assert PrecomputedAt(h, seqs[i - 1], i - 1, only);
      if seqs[i - 1].ts < threshold {
        LookupIsFold(h, threshold, i - 1);
        return seqs[i - 1].nodes;
      }
      i := i - 1;
    }
    NoneBefore(h, threshold);
    return [];
  }

  lemma {:induction false} NoneBefore(h: History, threshold: nat)
    requires forall j | 0 <= j < |h| :: h[j].ts >= threshold
    ensures Before(h, threshold) == []
    decreases |h|
  {
    if h != [] {
      NoneBefore(h[..|h| - 1], threshold);
    }
  }

  lemma {:induction false} LookupIsFold(h: History, threshold: nat, i: nat)
    requires Sorted(h) && i < |h| && h[i].ts < threshold && forall j | i < j < |h| :: h[j].ts >= threshold
    ensures Before(h, h[i].ts + 1) == Before(h, threshold)
  {
    BeforeSorted(h, threshold);
    BeforeSorted(h, h[i].ts + 1);
    assert i + 1 < |h| ==> h[i + 1].ts >= threshold;
    assert |Before(h, threshold)| == i + 1;
    assert |Before(h, h[i].ts + 1)| == i + 1;
  }

  // ----- consensus keys and threshold

  predicate Ready(r: Record, genesis: set<Id>, ts: nat) {
    r.state.Accepted? && (r.id in genesis || r.ts + PERIOD < ts)
  }

  /** The signers of a round after the first, in order. */
  function Keys(rs: seq<Record>, genesis: set<Id>, ts: nat): seq<Id> {
    if rs == [] then []
    else Keys(rs[..|rs| - 1], genesis, ts) + (if Ready(rs[|rs| - 1], genesis, ts) then [rs[|rs| - 1].id] else [])
  }

  predicate InBase(r: Record, genesis: set<Id>, ts: nat, final: bool) {
    match r.state
    case Pledging => !final && r.ts + (PERIOD - 3 * REFERENCE_THRESHOLD) < ts
    case Accepted => r.id in genesis || r.ts + REFERENCE_THRESHOLD < ts
    case _ => false
  }

  function Base(rs: seq<Record>, genesis: set<Id>, ts: nat, final: bool): nat {
    if rs == [] then 0
    else Base(rs[..|rs| - 1], genesis, ts, final) + (if InBase(rs[|rs| - 1], genesis, ts, final) then 1 else 0)
  }

  method ConsensusKeys(nodes: seq<Record>, genesis: set<Id>, ts: nat) returns (signers: seq<Id>)
    ensures signers == Keys(nodes, genesis, ts)
    ensures forall id :: id in signers <==> exists r <- nodes :: r.id == id && Ready(r, genesis, ts)
  {
    signers := [];
    for n := 0 to |nodes|
      invariant signers == Keys(nodes[..n], genesis, ts)
      invariant forall id :: id in signers <==> exists r <- nodes[..n] :: r.id == id && Ready(r, genesis, ts)
    {
      assert nodes[..n + 1][..n] == nodes[..n];
      assert nodes[..n + 1] == nodes[..n] + [nodes[n]];
      if Ready(nodes[n], genesis, ts) {
        signers := signers + [nodes[n].id];
      }
    }
    assert nodes[..|nodes|] == nodes;
  }

  method ConsensusThreshold(nodes: seq<Record>, genesis: set<Id>, ts: nat, final: bool) returns (threshold: nat)
    ensures threshold == Threshold(Base(nodes, genesis, ts, final))
    ensures threshold > |Keys(nodes, genesis, ts)| * 2 / 3
  {
    var base := 0;
    for n := 0 to |nodes|
      invariant base == Base(nodes[..n], genesis, ts, final)
    {
      assert nodes[..n + 1][..n] == nodes[..n];
      if InBase(nodes[n], genesis, ts, final) {
        base := base + 1;
      }
    }
    assert nodes[..|nodes|] == nodes;
    KeysWithinBase(nodes, genesis, ts, final);
    threshold := if base < KERNEL_MINIMUM_NODES then UNREACHABLE else base * 2 / 3 + 1;
  }

  /** Every key counts in the threshold's base, for every node list. */
  lemma {:induction false} KeysWithinBase(rs: seq<Record>, genesis: set<Id>, ts: nat, final: bool)
    ensures |Keys(rs, genesis, ts)| <= Base(rs, genesis, ts, final)
    decreases |rs|
  {
    if rs != [] {
      KeysWithinBase(rs[..|rs| - 1], genesis, ts, final);
    }
  }

  // ----- a node's index is its position among the keys

  function GenesisIds(h: History, g: nat): set<Id>
    requires g <= |h|
  {
    set i | 0 <= i < g :: h[i].id
  }

  /** A genesis node's acceptance is one of the genesis records. */
  lemma {:induction false} GenesisAcceptance(h: History, epoch: nat, g: nat, i: nat)
    requires Lawful(h, epoch, g) && g <= i < |h| && h[i].state.Accepted?
    ensures h[i].id !in GenesisIds(h, g)
  {
    LawfulSize(h, epoch, g);
    LawfulPrefix(h, epoch, g, i);
    GenesisTimes(h, epoch, g);
    assert h[i - 1].state.Pledging? && h[i - 1].id == h[i].id;
    LawfulPrefix(h, epoch, g, i - 1);
    assert forall j | 0 <= j < g :: h[j] in h[..i - 1];
  }

  /** Of two accepted nodes, the earlier record is ready whenever the later one is. */
  lemma {:induction false} EarlierReady(h: History, epoch: nat, g: nat, i: nat, j: nat, ts: nat)
    requires Lawful(h, epoch, g) && i < j < |h| && h[i].state.Accepted?
    requires g <= |h| && Ready(h[j], GenesisIds(h, g), ts)
    ensures Ready(h[i], GenesisIds(h, g), ts)
  {
    LawfulOrder(h, epoch, g);
    if h[j].id in GenesisIds(h, g) && j >= g {
      GenesisAcceptance(h, epoch, g, j);
    }
  }

  /** Among the records a node list is made of, the nodes before a ready one that count for its
      index are all ready too. */
  lemma {:induction false} CountsAgree(h: History, epoch: nat, g: nat, n: nat, k: nat, ts: nat)
    requires Lawful(h, epoch, g) && g <= |h| && n <= k < |h|
    requires Current(h, k) && Ready(h[k], GenesisIds(h, g), ts)
    ensures EligibleCount(Listing(h, false, n)) == |Keys(Listing(h, false, n), GenesisIds(h, g), ts)|
    decreases n
  {
    if n > 0 {
      CountsAgree(h, epoch, g, n - 1, k, ts);
      var l := Listing(h, false, n - 1);
      if Listed(h, false, n - 1) {
        EligibleIsReady(h, epoch, g, n - 1, k, ts);
        CountSnoc(l, h[n - 1], GenesisIds(h, g), ts);
      } else {
        assert Listing(h, false, n) == l;
      }
    }
  }

  lemma {:induction false} EligibleIsReady(h: History, epoch: nat, g: nat, i: nat, k: nat, ts: nat)
    requires Lawful(h, epoch, g) && g <= |h| && i < k < |h| && Current(h, i)
    requires Ready(h[k], GenesisIds(h, g), ts)
    ensures Eligible(h[i]) <==> Ready(h[i], GenesisIds(h, g), ts)
  {
    OnePledging(h, epoch, g);
    assert !h[i].state.Pledging?;
    if h[i].state.Accepted? {
      EarlierReady(h, epoch, g, i, k, ts);
    }
  }

  lemma {:induction false} CountSnoc(rs: seq<Record>, r: Record, genesis: set<Id>, ts: nat)
    ensures EligibleCount(rs + [r]) == EligibleCount(rs) + (if Eligible(r) then 1 else 0)
    ensures |Keys(rs + [r], genesis, ts)| == |Keys(rs, genesis, ts)| + (if Ready(r, genesis, ts) then 1 else 0)
  {
    assert (rs + [r])[..|rs|] == rs;
  }

  lemma {:induction false} KeysPrefix(rs: seq<Record>, genesis: set<Id>, ts: nat, k: nat)
    requires k < |rs| && Ready(rs[k], genesis, ts)
    ensures |Keys(rs[..k], genesis, ts)| < |Keys(rs, genesis, ts)|
    ensures Keys(rs, genesis, ts)[|Keys(rs[..k], genesis, ts)|] == rs[k].id
    decreases |rs|
  {
    var init := rs[..|rs| - 1];
    if k < |init| {
      KeysPrefix(init, genesis, ts, k);
      assert init[..k] == rs[..k];
    }
  }

  lemma {:induction false} ListedFrom(h: History, only: bool, n: nat, k: nat) returns (i: nat)
    requires n <= |h| && k < |Listing(h, only, n)|
    ensures i < n && Listed(h, only, i) && h[i] == Listing(h, only, n)[k] &&
            Listing(h, only, i) == Listing(h, only, n)[..k]
  {
    var pre := Listing(h, only, n - 1);
    if k < |pre| {
      i := ListedFrom(h, only, n - 1, k);
      assert pre[..k] == Listing(h, only, n)[..k];
    } else {
      i := n - 1;
      assert Listing(h, only, n)[..k] == pre;
    }
  }

  /** On every lawful history, at every time, a node that is ready to sign has as its consensus
      index its position among the consensus keys. */
  lemma {:induction false} IndexIsPosition(h: History, epoch: nat, g: nat, ts: nat, k: nat)
    requires Lawful(h, epoch, g) && g <= |h|
    requires k < |NodesAt(h, ts, false)| && Ready(NodesAt(h, ts, false)[k], GenesisIds(h, g), ts)
    ensures var rs := NodesAt(h, ts, false);
            var index := EligibleCount(rs[..k]);
            && |Indexed(rs)| == |rs| && Indexed(rs)[k] == CNode(rs[k], index)
            && index < |Keys(rs, GenesisIds(h, g), ts)| && Keys(rs, GenesisIds(h, g), ts)[index] == rs[k].id
  {
    var rs, p := NodesAt(h, ts, false), Before(h, ts);
    BeforeMeaning(h, epoch, g, ts);
    IndexedAt(rs, k);
    var i := ListedFrom(p, false, |p|, k);
    GenesisSeen(h, epoch, g, ts);
    LawfulPrefix(h, epoch, g, |p|);
    assert forall j | 0 <= j < g :: p[j] == h[j];
    assert GenesisIds(p, g) == GenesisIds(h, g);
    CountsAgree(p, epoch, g, i, i, ts);
    KeysPrefix(rs, GenesisIds(h, g), ts, k);
  }

  // ----- signer masks

  const MASK_BITS := 64

  function Toggle(mask: set<nat>, i: nat): set<nat> {
    if i in mask then mask - {i} else mask + {i}
  }

  /** Marking the index of every commitment, in any order, yields exactly their set. */
  method AggregateMask(indices: set<nat>) returns (mask: set<nat>, ok: bool)
    ensures ok <==> forall i <- indices :: i < MASK_BITS
    ensures ok ==> mask == indices
  {
    var rest := indices;
    mask, ok := {}, true;
    while rest != {}
      invariant rest <= indices && mask == indices - rest && forall i <- mask :: i < MASK_BITS
      decreases rest
    {
      var i :| i in rest;
      if i >= MASK_BITS {
        ok := false;
        return;
      }
      mask, rest := Toggle(mask, i), rest - {i};
    }
    assert mask == indices;
  }

  function Low(mask: set<nat>, n: nat): set<nat> {
    set i <- mask | i < n
  }

  method MaskKeys(mask: set<nat>) returns (keys: seq<nat>)
    ensures forall i: nat :: i in keys <==> i in mask && i < MASK_BITS
    ensures |keys| == |Low(mask, MASK_BITS)|
    ensures forall i, j | 0 <= i < j < |keys| :: keys[i] < keys[j]
  {
    keys := [];
    for n := 0 to MASK_BITS
      invariant forall i: nat :: i in keys <==> i in Low(mask, n)
      invariant |keys| == |Low(mask, n)|
      invariant (forall k | 0 <= k < |keys| :: keys[k] < n) && forall i, j | 0 <= i < j < |keys| :: keys[i] < keys[j]
    {
      if n in mask {
        assert Low(mask, n + 1) == Low(mask, n) + {n};
        keys := keys + [n];
      } else {
        assert Low(mask, n + 1) == Low(mask, n);
      }
    }
  }

  /** A mask passes if its indices are in range of the keys and reach the threshold. */
  predicate MaskPasses(mask: set<nat>, keys: seq<Id>, threshold: nat) {
    (forall i <- mask :: i < MASK_BITS) && (forall i <- mask :: i < |keys|) && |mask| >= threshold
  }

  /** Any two masks that pass for the same history and time share more than a third of the base;
      with fewer than seven nodes none passes. */
  lemma {:induction false} MasksOverlap(h: History, genesis: set<Id>, ts: nat, a: set<nat>, b: set<nat>, final: bool)
    requires var rs := NodesAt(h, ts, false);
             var threshold := Threshold(Base(rs, genesis, ts, final));
             MaskPasses(a, Keys(rs, genesis, ts), threshold) && MaskPasses(b, Keys(rs, genesis, ts), threshold)
    ensures var base := Base(NodesAt(h, ts, false), genesis, ts, final);
            base >= KERNEL_MINIMUM_NODES && 3 * |a * b| > base
  {
    var rs := NodesAt(h, ts, false);
    KeysWithinBase(rs, genesis, ts, final);
    QuorumsOverlap(Range(|Keys(rs, genesis, ts)|), Base(rs, genesis, ts, final), a, b);
  }

  lemma {:induction false} NoMaskBelowMinimum(mask: set<nat>, keys: seq<Id>, base: nat)
    requires base < KERNEL_MINIMUM_NODES
    ensures !MaskPasses(mask, keys, Threshold(base))
  {
    if forall i <- mask :: i < MASK_BITS {
      SubsetSize(mask, Range(MASK_BITS));
    }
  }
}
