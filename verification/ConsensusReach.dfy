/** The base of the threshold and the keys, counted, and that the threshold can always be reached. */
module ConsensusReach {
  import opened Election
  import opened NodeStore
  import opened NodeIndex
  import opened Quorum

  const SECOND := 1000000000  // nanoseconds

  // ----- who counts

  /** Accepted nodes count after half a minute; a pledging one, except for final snapshots, from
      ninety seconds before its twelve hours are over; others never. */
  predicate CountsInBase(r: Record, genesis: set<Id>, ts: nat, final: bool) {
    || (r.state == Accepted && (r.id in genesis || r.ts + 30 * SECOND < ts))
    || (r.state == Pledging && !final && r.ts + (12 * 3600 - 90) * SECOND < ts)
  }

  /** Nodes sign when they have been accepted for twelve hours. */
  predicate Signs(r: Record, genesis: set<Id>, ts: nat) {
    r.state == Accepted && (r.id in genesis || r.ts + 12 * 3600 * SECOND < ts)
  }

  function Places(rs: seq<Record>, p: Record -> bool): set<nat> {
    set i | 0 <= i < |rs| && p(rs[i])
  }

  lemma {:induction false} PlacesNext(rs: seq<Record>, p: Record -> bool)
    requires rs != []
    ensures |Places(rs, p)| == |Places(rs[..|rs| - 1], p)| + if p(rs[|rs| - 1]) then 1 else 0
  {
    var init, n := rs[..|rs| - 1], |rs| - 1;
    assert Places(rs, p) == Places(init, p) + if p(rs[n]) then {n} else {};
    assert n !in Places(init, p);
  }

  lemma {:induction false} BaseCounts(rs: seq<Record>, genesis: set<Id>, ts: nat, final: bool)
    ensures Base(rs, genesis, ts, final) == |Places(rs, r => CountsInBase(r, genesis, ts, final))|
    decreases |rs|
  {
    if rs != [] {
      BaseCounts(rs[..|rs| - 1], genesis, ts, final);
      PlacesNext(rs, r => CountsInBase(r, genesis, ts, final));
      assert InBase(rs[|rs| - 1], genesis, ts, final) <==> CountsInBase(rs[|rs| - 1], genesis, ts, final);
    }
  }

  lemma {:induction false} KeysCount(rs: seq<Record>, genesis: set<Id>, ts: nat)
    ensures |Keys(rs, genesis, ts)| == |Places(rs, r => Signs(r, genesis, ts))|
    ensures forall k :: k in Keys(rs, genesis, ts) <==> exists r <- rs :: r.id == k && Signs(r, genesis, ts)
    decreases |rs|
  {
    if rs != [] {
      var init, last := rs[..|rs| - 1], rs[|rs| - 1];
      assert rs == init + [last];
      KeysCount(init, genesis, ts);
      PlacesNext(rs, r => Signs(r, genesis, ts));
      assert Ready(last, genesis, ts) <==> Signs(last, genesis, ts);
    }
  }

  // ----- the base hardly exceeds the keys

  lemma {:induction false} BaseNearKeys(rs: seq<Record>, genesis: set<Id>, ts: nat, final: bool)
    requires forall k | 0 <= k < |rs| - 1 :: InBase(rs[k], genesis, ts, final) ==> Ready(rs[k], genesis, ts)
    ensures Base(rs, genesis, ts, final) == |Keys(rs, genesis, ts)| +
              if rs != [] && InBase(rs[|rs| - 1], genesis, ts, final) && !Ready(rs[|rs| - 1], genesis, ts) then 1 else 0
    decreases |rs|
  {
    if rs != [] {
      BaseNearKeys(rs[..|rs| - 1], genesis, ts, final);
      if |rs| > 1 {
        assert rs[..|rs| - 1][|rs| - 2] == rs[|rs| - 2];
      }
    }
  }

  /** Whoever is not the latest record is ready, if accepted, and not pledging. */
  lemma {:induction false} OldIsReady(p: History, epoch: nat, g: nat, ts: nat, i: nat)
    requires Lawful(p, epoch, g) && g <= |p| && (forall r <- p :: r.ts < ts)
    requires i < |p| && Current(p, i) && (i < |p| - 1 || i < g)
    ensures !p[i].state.Pledging? && (p[i].state.Accepted? ==> Ready(p[i], GenesisIds(p, g), ts))
  {
    LawfulOrder(p, epoch, g);
    OnePledging(p, epoch, g);
    assert p[|p| - 1] in p;
    if i < g {
      assert p[i].id in GenesisIds(p, g);
      LawfulPrefix(p, epoch, g, g);
      assert p[..g][i] == p[i];
    }
  }

  lemma {:induction false} ListedOldReady(p: History, epoch: nat, g: nat, ts: nat, k: nat)
    requires Lawful(p, epoch, g) && g <= |p| && (forall r <- p :: r.ts < ts)
    requires var rs := Listing(p, false, |p|); k < |rs| && (k < |rs| - 1 || |p| == g)
    ensures var r := Listing(p, false, |p|)[k];
            !r.state.Pledging? && (r.state.Accepted? ==> Ready(r, GenesisIds(p, g), ts))
  {
    var rs := Listing(p, false, |p|);
    var i := ListedFrom(p, false, |p|, k);
    OldIsReady(p, epoch, g, ts, i);
  }

  // ----- there are at least seven keys

  predicate IsAccepted(r: Record) {
    r.state.Accepted?
  }

  function AcceptedBelow(h: History, n: nat): set<nat>
    requires n <= |h|
  {
    set i | 0 <= i < n && Current(h, i) && h[i].state.Accepted?
  }

  lemma {:induction false} ListingCounts(h: History, n: nat)
    requires n <= |h|
    ensures |Places(Listing(h, false, n), IsAccepted)| == |AcceptedBelow(h, n)|
  {
    if n > 0 {
      ListingCounts(h, n - 1);
      var a, b, rs := AcceptedBelow(h, n - 1), AcceptedBelow(h, n), Listing(h, false, n);
      if Listed(h, false, n - 1) {
        PlacesNext(rs, IsAccepted);
        assert rs[..|rs| - 1] == Listing(h, false, n - 1);
        assert b == a + if h[n - 1].state.Accepted? then {n - 1} else {};
        assert n - 1 !in a;
      } else {
        assert rs == Listing(h, false, n - 1);
        assert b == a;
      }
    }
  }

  lemma {:induction false} KeysNearAccepted(rs: seq<Record>, genesis: set<Id>, ts: nat)
    requires forall k | 0 <= k < |rs| - 1 :: rs[k].state.Accepted? ==> Ready(rs[k], genesis, ts)
    ensures |Keys(rs, genesis, ts)| + 1 >= |Places(rs, IsAccepted)|
    ensures rs != [] && (rs[|rs| - 1].state.Accepted? ==> Ready(rs[|rs| - 1], genesis, ts)) ==>
              |Keys(rs, genesis, ts)| == |Places(rs, IsAccepted)|
    decreases |rs|
  {
    if rs != [] {
      PlacesNext(rs, IsAccepted);
      KeysNearAccepted(rs[..|rs| - 1], genesis, ts);
      if |rs| > 1 {
        assert rs[..|rs| - 1][|rs| - 2] == rs[|rs| - 2];
      }
    }
  }

  /** A newly accepted node comes on top of the minimum. */
  lemma {:induction false} NewcomerOnTop(p: History, epoch: nat, g: nat)
    requires Lawful(p, epoch, g) && |p| > g && p[|p| - 1].state.Accepted?
    ensures |AcceptedAt(p)| > MINIMUM_NODES
  {
    var init, r := p[..|p| - 1], p[|p| - 1];
    assert p == init + [r];
    EnoughAccepted(init, epoch, g);
    AcceptedStep(init, r);
    assert init[|init| - 1].id == r.id && init[|init| - 1].state.Pledging?;
    forall i <- AcceptedAt(init)
      ensures init[i].id != r.id
    {
      assert i != |init| - 1;
    }
    assert (set i <- AcceptedAt(init) | init[i].id != r.id) == AcceptedAt(init);
    assert |init| !in AcceptedAt(init);
  }

  lemma {:induction false} LastListed(p: History)
    requires p != []
    ensures var rs := Listing(p, false, |p|); rs != [] && rs[|rs| - 1] == p[|p| - 1]
  {
    assert Current(p, |p| - 1);
  }

  lemma {:induction false} SevenKeys(p: History, epoch: nat, g: nat, ts: nat)
    requires Lawful(p, epoch, g) && g <= |p| && (forall r <- p :: r.ts < ts)
    ensures |Keys(Listing(p, false, |p|), GenesisIds(p, g), ts)| >= KERNEL_MINIMUM_NODES
  {
    var rs, genesis := Listing(p, false, |p|), GenesisIds(p, g);
    LawfulSize(p, epoch, g);
    EnoughAccepted(p, epoch, g);
    ListingCounts(p, |p|);
    assert AcceptedBelow(p, |p|) == AcceptedAt(p);
    LastListed(p);
    forall k | 0 <= k < |rs| - 1
      ensures rs[k].state.Accepted? ==> Ready(rs[k], genesis, ts)
    {
      ListedOldReady(p, epoch, g, ts, k);
    }
    KeysNearAccepted(rs, genesis, ts);
    if p[|p| - 1].state.Accepted? {
      if |p| > g {
        NewcomerOnTop(p, epoch, g);
      } else {
        ListedOldReady(p, epoch, g, ts, |rs| - 1);
      }
    }
  }

  // ----- the threshold can be reached

  lemma {:induction false} BaseNearby(p: History, epoch: nat, g: nat, ts: nat, final: bool)
    requires Lawful(p, epoch, g) && g <= |p| && (forall r <- p :: r.ts < ts)
    ensures var rs, genesis := Listing(p, false, |p|), GenesisIds(p, g);
            && |Keys(rs, genesis, ts)| <= Base(rs, genesis, ts, final) <= |Keys(rs, genesis, ts)| + 1
            && (Base(rs, genesis, ts, final) == |Keys(rs, genesis, ts)| + 1 <==>
                InBase(p[|p| - 1], genesis, ts, final) && !Ready(p[|p| - 1], genesis, ts))
  {
    var rs, genesis := Listing(p, false, |p|), GenesisIds(p, g);
    LawfulSize(p, epoch, g);
    LastListed(p);
    forall k | 0 <= k < |rs| - 1
      ensures InBase(rs[k], genesis, ts, final) ==> Ready(rs[k], genesis, ts)
    {
      ListedOldReady(p, epoch, g, ts, k);
    }
    BaseNearKeys(rs, genesis, ts, final);
  }

  /** On every lawful history, at every time after genesis, the base is the number of keys, or one
      more for a node that was accepted in the last twelve hours or is about to be.  There are at
      least seven keys, and a mask of all of them passes as long as it has room for them: for final
      snapshots and for others. */
  lemma {:induction false} FullMaskPassesIff(h: History, epoch: nat, g: nat, ts: nat, final: bool)
    requires Lawful(h, epoch, g) && g <= |h| && Before(h, ts) != []
    ensures var rs, genesis := NodesAt(h, ts, false), GenesisIds(h, g);
            var keys, base := Keys(rs, genesis, ts), Base(rs, genesis, ts, final);
            && 7 <= |keys| <= base <= |keys| + 1
            && (MaskPasses(Range(|keys|), keys, Threshold(base)) <==> |keys| <= 64)
  {
    var p := Before(h, ts);
    BeforeMeaning(h, epoch, g, ts);
    GenesisSeen(h, epoch, g, ts);
    LawfulPrefix(h, epoch, g, |p|);
    assert forall j | 0 <= j < g :: p[j] == h[j];
    assert GenesisIds(p, g) == GenesisIds(h, g);
    SevenKeys(p, epoch, g, ts);
    BaseNearby(p, epoch, g, ts, final);
    var keys := Keys(Listing(p, false, |p|), GenesisIds(p, g), ts);
    if |keys| > 64 {
      assert 64 in Range(|keys|);
    }
  }

  /** A mask passes exactly if it names keys that it has room for, more than two thirds of the base. */
  lemma {:induction false} MaskPassesIff(h: History, epoch: nat, g: nat, ts: nat, final: bool, mask: set<nat>)
    requires Lawful(h, epoch, g) && g <= |h| && Before(h, ts) != []
    ensures var rs, genesis := NodesAt(h, ts, false), GenesisIds(h, g);
            var keys, base := Keys(rs, genesis, ts), Base(rs, genesis, ts, final);
            MaskPasses(mask, keys, Threshold(base)) <==>
            (forall i <- mask :: i < 64 && i < |keys|) && 3 * |mask| > 2 * base
  {
    FullMaskPassesIff(h, epoch, g, ts, final);
  }
}
