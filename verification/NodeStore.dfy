/** The node state queue in the store, and the kernel's choice of the node to remove. */
module NodeStore {
  import opened Election

  ghost predicate Sorted(h: History) {
    forall i, j | 0 <= i < j < |h| :: Precedes(h[i], h[j])
  }

  /** A write keeps the queue in key order and changes the entry at its own key only. */
  lemma {:induction false} InsertSorted(h: History, r: Record)
    requires Sorted(h)
    ensures Sorted(Insert(h, r))
    ensures forall q :: q in Insert(h, r) <==> q == r || (q in h && (q.ts != r.ts || q.id != r.id))
    decreases |h|
  {
    if h != [] {
      var init, last := h[..|h| - 1], h[|h| - 1];
      assert h == init + [last];
      InsertSorted(init, r);
      assert forall q <- init :: Precedes(q, last);
    }
  }

  class NodeQueue {
    var queue: History

    ghost predicate Valid()
      reads this
    {
      Sorted(queue)
    }

    constructor (genesis: History)
      requires Sorted(genesis)
      ensures Valid() && queue == genesis
    {
      queue := genesis;
    }

    method ReadAllNodes(threshold: nat) returns (nodes: History)
      requires Valid()
      ensures nodes == Before(queue, threshold + 1)
    {
      nodes := [];
      for n := 0 to |queue|
        invariant nodes == Before(queue[..n], threshold + 1)
        invariant forall i | |nodes| <= i < n :: queue[i].ts > threshold
      {
        assert queue[..n + 1][..n] == queue[..n];
        BeforeSorted(queue[..n], threshold + 1);
        if queue[n].ts <= threshold {
          assert nodes == queue[..n];
          nodes := nodes + [queue[n]];
          assert nodes == queue[..n + 1];
        }
      }
      assert queue[..|queue|] == queue;
    }

    method WriteNodePledge(id: Id, tx: Hash, ts: nat) returns (ok: bool)
      requires Valid()
      modifies this
      ensures Valid()
      ensures ok == PledgeStore(old(queue), ts, id, tx)
      ensures queue == if ok then Insert(old(queue), Record(id, tx, ts, Pledging)) else old(queue)
    {
      var nodes := ReadAllNodes(ts + PERIOD);
      for n := 0 to |nodes|
        invariant queue == old(queue)
        invariant forall i | 0 <= i < n && Current(nodes, i) ::
            !nodes[i].state.Pledging? && nodes[i].id != id && nodes[i].tx != tx
      {
        if Current(nodes, n) && (nodes[n].state.Pledging? || nodes[n].id == id || nodes[n].tx == tx) {
          return false;
        }
      }
      InsertSorted(queue, Record(id, tx, ts, Pledging));
      queue := Insert(queue, Record(id, tx, ts, Pledging));
      return true;
    }

    /** Accepting (not of genesis) and cancelling differ in the state they record. */
    method WriteNodeResolution(id: Id, tx: Hash, ts: nat, state: NodeState) returns (ok: bool)
      requires Valid() && (state.Accepted? || state.Cancelled?)
      modifies this
      ensures Valid()
      ensures ok == ResolveStore(old(queue), ts, id)
      ensures queue == if ok then Insert(old(queue), Record(id, tx, ts, state)) else old(queue)
    {
      var nodes := ReadAllNodes(ts + PERIOD);
      if |nodes| == 0 || !nodes[|nodes| - 1].state.Pledging? || nodes[|nodes| - 1].id != id {
        return false;
      }
      InsertSorted(queue, Record(id, tx, ts, state));
      queue := Insert(queue, Record(id, tx, ts, state));
      return true;
    }

    method WriteNodeRemove(id: Id, tx: Hash, ts: nat) returns (ok: bool)
      requires Valid()
      modifies this
      ensures Valid()
      ensures ok == RemoveStore(old(queue), ts, id)
      ensures queue == if ok then Insert(old(queue), Record(id, tx, ts, Removed)) else old(queue)
    {
      var nodes := ReadAllNodes(ts + PERIOD);
      if |nodes| == 0 || nodes[|nodes| - 1].state.Pledging? {
        return false;
      }
      var node := -1;
      for n := 0 to |nodes|
        invariant -1 <= node < n && (node >= 0 ==> nodes[node].id == id)
        invariant queue == old(queue) && forall i | node < i < n :: nodes[i].id != id
      {
        if nodes[n].id == id {
          node := n;
        }
      }
      if node < 0 || !nodes[node].state.Accepted? {
        assert forall i <- AcceptedAt(nodes) :: nodes[i].id == id ==> i == node;
        return false;
      }
      assert node in AcceptedAt(nodes);
      InsertSorted(queue, Record(id, tx, ts, Removed));
      queue := Insert(queue, Record(id, tx, ts, Removed));
      return true;
    }
  }

  // ----- the node to remove

  datatype Option<+T> = None | Some(value: T)

  /** The record at `i` is what the transaction under vote has already written. */
  predicate Voted(nodes: History, again: Option<Hash>, i: nat)
    requires i < |nodes|
  {
    Current(nodes, i) && again == Some(nodes[i].tx)
  }

  ghost predicate LastVoted(nodes: History, again: Option<Hash>, c: nat) {
    c < |nodes| && Voted(nodes, again, c) && forall i | c < i < |nodes| :: !Voted(nodes, again, i)
  }

  ghost predicate NoneVoted(nodes: History, again: Option<Hash>) {
    forall i | 0 <= i < |nodes| :: !Voted(nodes, again, i)
  }

  ghost predicate VotedBelow(nodes: History, again: Option<Hash>, voted: Option<nat>, n: nat)
    requires n <= |nodes|
  {
    && (voted.Some? ==> voted.value < n && Voted(nodes, again, voted.value))
    && forall i | (if voted.Some? then voted.value + 1 else 0) <= i < n :: !Voted(nodes, again, i)
  }

  ghost predicate QuietBelow(nodes: History, now: nat, again: Option<Hash>, n: nat)
    requires n <= |nodes|
  {
    forall i | 0 <= i < n && Current(nodes, i) && !Voted(nodes, again, i) ::
      nodes[i].ts + PERIOD <= now && !nodes[i].state.Pledging?
  }

  /** Every other current record is at least twelve hours old and settled. */
  ghost predicate OthersQuiet(nodes: History, now: nat, again: Option<Hash>) {
    QuietBelow(nodes, now, again, |nodes|)
  }

  function OthersBelow(nodes: History, again: Option<Hash>, n: nat): set<nat>
    requires n <= |nodes|
  {
    set i | 0 <= i < n && Current(nodes, i) && nodes[i].state.Accepted? && !Voted(nodes, again, i)
  }

  function OthersAccepted(nodes: History, again: Option<Hash>): set<nat> {
    OthersBelow(nodes, again, |nodes|)
  }

  /** `accepted` has as many elements as `s` and starts with the least of them. */
  ghost predicate Lists(accepted: seq<nat>, s: set<nat>) {
    |accepted| == |s| && (accepted != [] ==> accepted[0] in s && forall i <- s :: accepted[0] <= i)
  }

  lemma {:induction false} ListsNext(accepted: seq<nat>, s: set<nat>, n: nat)
    requires Lists(accepted, s) && forall i <- s :: i < n
    ensures Lists(accepted + [n], s + {n})
  {
    assert n !in s;
    assert accepted == [] ==> s == {};
  }

  lemma {:induction false} OneMore(nodes: History, again: Option<Hash>, n: nat)
    requires n < |nodes|
    ensures var counts := Current(nodes, n) && nodes[n].state.Accepted? && !Voted(nodes, again, n);
            && (forall i <- OthersBelow(nodes, again, n) :: i < n)
            && OthersBelow(nodes, again, n + 1) == OthersBelow(nodes, again, n) + if counts then {n} else {}
  {
  }

  lemma {:induction false} ListMore(nodes: History, again: Option<Hash>, n: nat, accepted: seq<nat>)
    requires n < |nodes| && Lists(accepted, OthersBelow(nodes, again, n))
    ensures var counts := Current(nodes, n) && nodes[n].state.Accepted? && !Voted(nodes, again, n);
            Lists(if counts then accepted + [n] else accepted, OthersBelow(nodes, again, n + 1))
  {
    var s := OthersBelow(nodes, again, n);
    OneMore(nodes, again, n);
    ListsNext(accepted, s, n);
    assert s + {} == s;
  }

  lemma {:induction false} NoOther(nodes: History, again: Option<Hash>)
    requires NoneVoted(nodes, again)
    ensures OthersAccepted(nodes, again) == AcceptedAt(nodes)
  {
  }

  /** The kernel's verdict, for a removal it has yet to propose or one it is asked to vote on again. */
  ghost predicate Removable(nodes: History, epoch: nat, now: nat, again: Option<Hash>) {
    && (nodes != [] ==> !nodes[|nodes| - 1].state.Pledging?)
    && InWindow(epoch, now) && OthersQuiet(nodes, now, again) && |OthersAccepted(nodes, again)| > MINIMUM_NODES
  }

  /** The node it names: the one of the record under vote, or else the earliest accepted one. */
  ghost predicate Named(nodes: History, again: Option<Hash>, c: nat) {
    LastVoted(nodes, again, c) || (NoneVoted(nodes, again) && Earliest(nodes, c))
  }

  /** One pass over the current records: the record under vote, whether all others are old enough
      and settled, and which of them are of accepted nodes. */
  method GatherAccepted(nodes: History, now: nat, again: Option<Hash>)
    returns (voted: Option<nat>, accepted: seq<nat>, ok: bool)
    ensures ok <==> OthersQuiet(nodes, now, again)
    ensures ok ==> if voted.Some? then LastVoted(nodes, again, voted.value) else NoneVoted(nodes, again)
    ensures ok ==> |accepted| == |OthersAccepted(nodes, again)|
    ensures ok && voted.None? && accepted != [] ==> Earliest(nodes, accepted[0])
  {
    voted, accepted := None, [];
    for n := 0 to |nodes|
      invariant QuietBelow(nodes, now, again, n)
      invariant VotedBelow(nodes, again, voted, n)
      invariant Lists(accepted, OthersBelow(nodes, again, n))
    {
      ListMore(nodes, again, n, accepted);
      if Current(nodes, n) {
        if again == Some(nodes[n].tx) {
          voted := Some(n);
        } else {
          if nodes[n].ts + PERIOD > now || nodes[n].state.Pledging? {
            return voted, accepted, false;
          }
          if nodes[n].state.Accepted? {
            accepted := accepted + [n];
          }
        }
      }
    }
    if voted.None? {
      NoOther(nodes, again);
    }
    return voted, accepted, true;
  }

  /** On a removal that is not recorded yet the verdict is the guard of the automaton. */
  lemma {:induction false} FreshRemoval(h: History, epoch: nat, now: nat, again: Option<Hash>, c: nat)
    requires var p := Before(h, now); NoneVoted(p, again) && (AcceptedAt(p) != {} ==> Earliest(p, c))
    ensures var p := Before(h, now);
            forall id :: RemoveGuard(h, epoch, now, id) <==> Removable(p, epoch, now, again) && c < |p| && p[c].id == id
  {
    NoOther(Before(h, now), again);
  }

  /** The kernel names the one node whose removal it lets through, unless that is the node which
      proposes it. */
  method CheckRemovePossibility(h: History, epoch: nat, now: nat, again: Option<Hash>, self: Id)
    returns (candidate: nat, ok: bool)
    ensures ok ==> Named(Before(h, now), again, candidate) && Before(h, now)[candidate].id != self
    ensures var p := Before(h, now);
            ok <==> Removable(p, epoch, now, again) && forall c: nat | Named(p, again, c) :: p[c].id != self
    ensures var p := Before(h, now);
            NoneVoted(p, again) ==>
              forall id :: RemoveGuard(h, epoch, now, id) && id != self <==> ok && p[candidate].id == id
  {
    candidate, ok := 0, false;
    var nodes := Before(h, now);
    if |nodes| > 0 && nodes[|nodes| - 1].state.Pledging? {
      return;
    }
    if !InWindow(epoch, now) {
      return;
    }
    var voted, accepted, quiet := GatherAccepted(nodes, now, again);
    if !quiet || |accepted| <= MINIMUM_NODES {
      if NoneVoted(nodes, again) {
        NoOther(nodes, again);
      }
      return;
    }
    candidate := if voted.Some? then voted.value else accepted[0];
    if voted.None? {
      FreshRemoval(h, epoch, now, again, candidate);
    }
    assert Named(nodes, again, candidate);
    ok := nodes[candidate].id != self;
  }
}
