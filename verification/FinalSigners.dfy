/** The check of a final snapshot's collective signature.  In the first round of a pledging node its
    own key follows the others, and for a while after a node was removed the check is tried again
    with that node's key in front of them. */
module FinalSigners {
  import opened Election
  import opened NodeStore
  import opened NodeIndex
  import opened Quorum

  ghost predicate DistinctIds(rs: seq<Record>) {
    forall i, j | 0 <= i < j < |rs| :: rs[i].id != rs[j].id
  }

  ghost predicate DistinctKeys(keys: seq<Id>) {
    forall i, j | 0 <= i < j < |keys| :: keys[i] != keys[j]
  }

  function Ids(keys: seq<Id>): set<Id> {
    set k <- keys
  }

  /** The list ends with a node that was removed less than twelve hours ago. */
  predicate Retries(rs: seq<Record>, ts: nat) {
    rs != [] && rs[|rs| - 1].state.Removed? && ts >= PERIOD && rs[|rs| - 1].ts >= ts - PERIOD
  }

  /** `own` is the node of the chain if it is pledging and the round is its first. */
  function AllKeys(rs: seq<Record>, genesis: set<Id>, ts: nat, own: Option<Id>): seq<Id> {
    Keys(rs, genesis, ts) + if own.Some? then [own.value] else []
  }

  function RetryKeys(rs: seq<Record>, genesis: set<Id>, ts: nat, own: Option<Id>): seq<Id>
    requires rs != []
  {
    [rs[|rs| - 1].id] + AllKeys(rs, genesis, ts, own)
  }

  /** The node of the chain, if its key is added, is listed as pledging. */
  predicate OwnPledges(rs: seq<Record>, own: Option<Id>) {
    own.Some? ==> exists r <- rs :: r.id == own.value && r.state.Pledging?
  }

  /** And each node is listed once, as it is on every history. */
  ghost predicate Proper(rs: seq<Record>, own: Option<Id>) {
    DistinctIds(rs) && OwnPledges(rs, own)
  }

  function SignersOf(keys: seq<Id>, mask: set<nat>): set<Id>
    requires forall i <- mask :: i < |keys|
  {
    set i <- mask :: keys[i]
  }

  /** `verifies` is the verdict of the curve on the signature under the marked ones of the keys. */
  predicate Passes(mask: set<nat>, keys: seq<Id>, base: nat, verifies: seq<Id> -> bool) {
    MaskPasses(mask, keys, Threshold(base)) && verifies(keys)
  }

  // ----- the keys are distinct

  lemma {:induction false} ListingDistinct(h: History, n: nat)
    requires n <= |h|
    ensures DistinctIds(Listing(h, false, n))
    ensures forall r <- Listing(h, false, n) :: exists i :: 0 <= i < n && Current(h, i) && h[i] == r
  {
    if n > 0 {
      ListingDistinct(h, n - 1);
      if Listed(h, false, n - 1) {
        var pre := Listing(h, false, n - 1);
        forall k | 0 <= k < |pre|
          ensures pre[k].id != h[n - 1].id
        {
          assert pre[k] in pre;
          var i :| 0 <= i < n - 1 && Current(h, i) && h[i] == pre[k];
        }
      }
    }
  }

  /** Each node is listed once on every history. */
  lemma {:induction false} NodesDistinct(h: History, ts: nat)
    ensures DistinctIds(NodesAt(h, ts, false))
  {
    ListingDistinct(Before(h, ts), |Before(h, ts)|);
  }

  lemma {:induction false} KeysDistinct(rs: seq<Record>, genesis: set<Id>, ts: nat)
    requires DistinctIds(rs)
    ensures DistinctKeys(Keys(rs, genesis, ts))
    ensures forall k <- Keys(rs, genesis, ts) :: exists r <- rs :: r.id == k && Ready(r, genesis, ts)
    decreases |rs|
  {
    if rs != [] {
      var pre, last := rs[..|rs| - 1], rs[|rs| - 1];
      KeysDistinct(pre, genesis, ts);
      assert rs == pre + [last];
      forall k <- Keys(pre, genesis, ts)
        ensures k != last.id && exists r <- rs :: r.id == k && Ready(r, genesis, ts)
      {
        var r :| r in pre && r.id == k && Ready(r, genesis, ts);
        assert r in rs;
      }
      assert last in rs;
      ConsDistinct(Keys(pre, genesis, ts), last.id);
    }
  }

  lemma {:induction false} ConsDistinct(keys: seq<Id>, k: Id)
    requires DistinctKeys(keys) && k !in keys
    ensures DistinctKeys(keys + [k]) && DistinctKeys([k] + keys)
  {
    var s := [k] + keys;
    forall i, j | 0 <= i < j < |s|
      ensures s[i] != s[j]
    {
      assert s[j] == keys[j - 1];
    }
  }

  lemma {:induction false} AllDistinct(rs: seq<Record>, genesis: set<Id>, ts: nat, own: Option<Id>)
    requires Proper(rs, own)
    ensures DistinctKeys(AllKeys(rs, genesis, ts, own))
    ensures forall k <- AllKeys(rs, genesis, ts, own) :: exists r <- rs :: r.id == k && !r.state.Removed?
  {
    KeysDistinct(rs, genesis, ts);
    var keys := Keys(rs, genesis, ts);
    forall k <- keys
      ensures (own.Some? ==> k != own.value) && exists r <- rs :: r.id == k && !r.state.Removed?
    {
      var r :| r in rs && r.id == k && Ready(r, genesis, ts);
    }
    if own.Some? {
      ConsDistinct(keys, own.value);
    }
  }

  lemma {:induction false} RetryDistinct(rs: seq<Record>, genesis: set<Id>, ts: nat, own: Option<Id>)
    requires Proper(rs, own) && Retries(rs, ts)
    ensures DistinctKeys(RetryKeys(rs, genesis, ts, own))
    ensures Ids(RetryKeys(rs, genesis, ts, own)) == Ids(AllKeys(rs, genesis, ts, own)) + {rs[|rs| - 1].id}
  {
    AllDistinct(rs, genesis, ts, own);
    var last, keys := rs[|rs| - 1], AllKeys(rs, genesis, ts, own);
    forall k <- keys
      ensures k != last.id
    {
      var r :| r in rs && r.id == k && !r.state.Removed?;
    }
    ConsDistinct(keys, last.id);
  }

  lemma {:induction false} IdsSize(keys: seq<Id>)
    requires DistinctKeys(keys)
    ensures |Ids(keys)| == |keys|
    decreases |keys|
  {
    if keys != [] {
      var pre, last := keys[..|keys| - 1], keys[|keys| - 1];
      IdsSize(pre);
      assert Ids(keys) == Ids(pre) + {last};
      assert last !in Ids(pre);
    }
  }

  /** A mask marks as many nodes as it has bits. */
  lemma {:induction false} SignersSize(keys: seq<Id>, mask: set<nat>)
    requires DistinctKeys(keys) && forall i <- mask :: i < |keys|
    ensures |SignersOf(keys, mask)| == |mask| && SignersOf(keys, mask) <= Ids(keys)
    decreases mask
  {
    if mask != {} {
      var i :| i in mask;
      SignersSize(keys, mask - {i});
      assert SignersOf(keys, mask) == SignersOf(keys, mask - {i}) + {keys[i]};
      assert keys[i] !in SignersOf(keys, mask - {i});
    }
  }

  // ----- the method

  /** The nodes marked by the mask, in the order of their indexes. */
  method ListSigners(keys: seq<Id>, mask: set<nat>) returns (signers: seq<Id>)
    requires (forall i <- mask :: i < MASK_BITS) && forall i <- mask :: i < |keys|
    ensures Ids(signers) == SignersOf(keys, mask) && |signers| == |mask|
  {
    var marked := MaskKeys(mask);
    assert Low(mask, MASK_BITS) == mask;
    signers := [];
    forall n | 0 <= n < |marked|
      ensures marked[n] < |keys|
    {
      assert marked[n] in marked;
    }
    for n := 0 to |marked|
      invariant |signers| == n && forall i | 0 <= i < n :: signers[i] == keys[marked[i]]
    {
      assert marked[n] in marked;
      signers := signers + [keys[marked[n]]];
    }
    forall id
      ensures id in Ids(signers) <==> id in SignersOf(keys, mask)
    {
      if id in SignersOf(keys, mask) {
        var i :| i in mask && keys[i] == id;
        assert i in marked;
        var n :| 0 <= n < |marked| && marked[n] == i;
        assert signers[n] == id;
      }
      if id in signers {
        var n :| 0 <= n < |signers| && signers[n] == id;
        assert marked[n] in marked;
      }
    }
  }

  /** Final on the first try, or on the second with the removed node; in both cases by as many
      different nodes as the threshold asks for. */
  method VerifyFinalization(rs: seq<Record>, genesis: set<Id>, ts: nat, own: Option<Id>, mask: set<nat>,
                            verifies: seq<Id> -> bool)
    returns (signers: seq<Id>, final: bool)
    requires rs != [] && Proper(rs, own)
    ensures var base := Base(rs, genesis, ts, true);
            final <==> Passes(mask, AllKeys(rs, genesis, ts, own), base, verifies) ||
                       (Retries(rs, ts) && Passes(mask, RetryKeys(rs, genesis, ts, own), base, verifies))
    ensures final ==> Quorate(rs, genesis, ts, own, Ids(signers))
  {
    signers, final := [], false;
    var cids := ConsensusKeys(rs, genesis, ts);
    if own.Some? {
      cids := cids + [own.value];
    }
    var threshold := ConsensusThreshold(rs, genesis, ts, true);
    assert cids == AllKeys(rs, genesis, ts, own);
    AllDistinct(rs, genesis, ts, own);
    if MaskPasses(mask, cids, threshold) && verifies(cids) {
      signers := ListSigners(cids, mask);
      SignersSize(cids, mask);
      return signers, true;
    }
    var rn := rs[|rs| - 1];
    if !rn.state.Removed? {
      return;
    }
    if ts < PERIOD || rn.ts < ts - PERIOD {
      return;
    }
    cids := [rn.id] + cids;
    RetryDistinct(rs, genesis, ts, own);
    if MaskPasses(mask, cids, threshold) && verifies(cids) {
      signers := ListSigners(cids, mask);
      SignersSize(cids, mask);
      return signers, true;
    }
  }

  // ----- two final snapshots of one time

  /** The nodes whose keys the check may use. */
  function Pool(rs: seq<Record>, genesis: set<Id>, ts: nat, own: Option<Id>): set<Id> {
    Ids(AllKeys(rs, genesis, ts, own)) + if Retries(rs, ts) then {rs[|rs| - 1].id} else {}
  }

  predicate Quorate(rs: seq<Record>, genesis: set<Id>, ts: nat, own: Option<Id>, signers: set<Id>) {
    signers <= Pool(rs, genesis, ts, own) && |signers| >= Threshold(Base(rs, genesis, ts, true))
  }

  lemma {:induction false} PoolSize(rs: seq<Record>, genesis: set<Id>, ts: nat, own: Option<Id>)
    requires Proper(rs, own)
    ensures |Pool(rs, genesis, ts, own)| ==
            |Keys(rs, genesis, ts)| + (if own.Some? then 1 else 0) + if Retries(rs, ts) then 1 else 0
  {
    AllDistinct(rs, genesis, ts, own);
    IdsSize(AllKeys(rs, genesis, ts, own));
    if Retries(rs, ts) {
      RetryDistinct(rs, genesis, ts, own);
      IdsSize(RetryKeys(rs, genesis, ts, own));
    } else {
      assert Pool(rs, genesis, ts, own) == Ids(AllKeys(rs, genesis, ts, own));
    }
  }

  ghost predicate AlwaysOverlap(rs: seq<Record>, genesis: set<Id>, ts: nat, own: Option<Id>) {
    forall a, b | Quorate(rs, genesis, ts, own, a) && Quorate(rs, genesis, ts, own, b) ::
      3 * |a * b| > Base(rs, genesis, ts, true)
  }

  /** Whatever the history, any two sets of signers that can make snapshots of one time final share
      more than a third of the base exactly if the keys that may be used, with the pledging and the
      removed node's, are no more than the base, or one more and the base is not one more than a
      multiple of three. */
  lemma {:induction false} FinalSignersOverlapIff(h: History, genesis: set<Id>, ts: nat, own: Option<Id>, keys: nat)
    requires OwnPledges(NodesAt(h, ts, false), own)
    requires var rs := NodesAt(h, ts, false);
             keys == |Keys(rs, genesis, ts)| + (if own.Some? then 1 else 0) + if Retries(rs, ts) then 1 else 0
    requires var base := Base(NodesAt(h, ts, false), genesis, ts, true);
             base >= KERNEL_MINIMUM_NODES && keys >= Threshold(base)
    ensures AlwaysOverlap(NodesAt(h, ts, false), genesis, ts, own) <==>
            Tight(keys, Base(NodesAt(h, ts, false), genesis, ts, true))
  {
    var rs := NodesAt(h, ts, false);
    var base, pool := Base(rs, genesis, ts, true), Pool(rs, genesis, ts, own);
    NodesDistinct(h, ts);
    PoolSize(rs, genesis, ts, own);
    OverlapIff(pool, base);
    assert forall a :: Quorate(rs, genesis, ts, own, a) <==> a <= pool && |a| >= Threshold(base);
  }

  lemma {:induction false} ListedPledgeIsLast(p: History, epoch: nat, g: nat, r: Record)
    requires Lawful(p, epoch, g) && r in Listing(p, false, |p|) && r.state.Pledging?
    ensures var rs := Listing(p, false, |p|); rs[|rs| - 1] == r
  {
    var rs := Listing(p, false, |p|);
    var k: nat :| k < |rs| && rs[k] == r;
    var i := ListedFrom(p, false, |p|, k);
    OnePledging(p, epoch, g);
    assert Listed(p, false, |p| - 1) && rs == Listing(p, false, |p| - 1) + [p[|p| - 1]];
  }

  lemma {:induction false} PledgeIsLast(h: History, epoch: nat, g: nat, ts: nat, r: Record)
    requires Lawful(h, epoch, g) && r in NodesAt(h, ts, false) && r.state.Pledging?
    ensures var rs := NodesAt(h, ts, false); rs[|rs| - 1] == r
  {
    var p := Before(h, ts);
    BeforeMeaning(h, epoch, g, ts);
    LawfulSize(h, epoch, g);
    assert p != [];
    GenesisSeen(h, epoch, g, ts);
    LawfulPrefix(h, epoch, g, |p|);
    ListedPledgeIsLast(p, epoch, g, r);
  }

  /** On every lawful history at most one key is added: a pledging node is the latest record, and
      then there is no second try. */
  lemma {:induction false} OneKeyAdded(h: History, epoch: nat, g: nat, genesis: set<Id>, ts: nat, own: Option<Id>)
    requires Lawful(h, epoch, g) && OwnPledges(NodesAt(h, ts, false), own)
    ensures var rs := NodesAt(h, ts, false);
            && !(own.Some? && Retries(rs, ts))
            && |Pool(rs, genesis, ts, own)| <= Base(rs, genesis, ts, true) + 1
  {
    var rs := NodesAt(h, ts, false);
    NodesDistinct(h, ts);
    PoolSize(rs, genesis, ts, own);
    KeysWithinBase(rs, genesis, ts, true);
    if own.Some? {
      var r :| r in rs && r.id == own.value && r.state.Pledging?;
      PledgeIsLast(h, epoch, g, ts, r);
    }
  }

  /** Record `i` is the latest before `ts` and a removal of the last twelve hours. */
  predicate LateRemoval(h: History, ts: nat, i: nat) {
    && i < |h| && h[i].state.Removed? && h[i].ts < ts <= h[i].ts + 12 * 3600 * 1000000000
    && (i + 1 < |h| ==> h[i + 1].ts >= ts)
  }

  lemma {:induction false} RetriesOf(p: History, ts: nat)
    requires p != []
    ensures Retries(Listing(p, false, |p|), ts) <==>
            ts >= PERIOD && p[|p| - 1].state.Removed? && p[|p| - 1].ts >= ts - PERIOD
  {
    assert Current(p, |p| - 1);
    assert Listing(p, false, |p|) == Listing(p, false, |p| - 1) + [p[|p| - 1]];
  }

  /** The first `n` records are those before `ts`. */
  ghost predicate CutAt(h: History, ts: nat, n: nat) {
    && n <= |h| && (forall i | 0 <= i < n :: h[i].ts < ts) && (forall i | n <= i < |h| :: h[i].ts >= ts)
  }

  lemma {:induction false} LateRemovalIs(h: History, ts: nat, n: nat)
    requires CutAt(h, ts, n)
    ensures (exists i: nat :: LateRemoval(h, ts, i)) <==> n > 0 && h[n - 1].state.Removed? && h[n - 1].ts + PERIOD >= ts
  {
    if n > 0 && h[n - 1].state.Removed? && h[n - 1].ts + PERIOD >= ts {
      assert LateRemoval(h, ts, n - 1);
    }
    if i: nat :| LateRemoval(h, ts, i) {
      assert i < n;
      assert i + 1 < n ==> h[i + 1].ts < ts;
    }
  }

  /** On every lawful history the second try is made exactly if the latest record before the
      snapshot is a removal of the last twelve hours. */
  lemma {:induction false} RetriesIff(h: History, epoch: nat, g: nat, ts: nat)
    requires Lawful(h, epoch, g)
    ensures Retries(NodesAt(h, ts, false), ts) <==>
            ts >= 12 * 3600 * 1000000000 && exists i: nat :: LateRemoval(h, ts, i)
  {
    var p := Before(h, ts);
    BeforeMeaning(h, epoch, g, ts);
    LateRemovalIs(h, ts, |p|);
    if p != [] {
      RetriesOf(p, ts);
    }
  }
}
