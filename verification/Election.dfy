/** The election of consensus nodes: pledge, accept, cancel and remove, as the kernel guards and
    the store records them.

    One identifier stands for a node's signer key and its network id.  A guard and the write that
    follows it are one step. */
module Election {
  type Id = nat
  type Hash = nat

  const HOUR := 3600000000000  // nanoseconds
  const PERIOD := 12 * HOUR
  const ACCEPT_PERIOD_MAXIMUM := 7 * 24 * HOUR
  const TIME_BEGIN := 13
  const TIME_END := 19
  const MINIMUM_NODES := 7

  datatype NodeState = Pledging | Accepted | Cancelled | Removed

  datatype Record = Record(id: Id, tx: Hash, ts: nat, state: NodeState)

  /** Records in the order of their keys: timestamp, then node. */
  type History = seq<Record>

  predicate Precedes(a: Record, b: Record) {
    a.ts < b.ts || (a.ts == b.ts && a.id < b.id)
  }

  /** A write at its place in key order; the same key is overwritten. */
  function Insert(h: History, r: Record): History {
    if h == [] then [r]
    else
      var init, last := h[..|h| - 1], h[|h| - 1];
      if Precedes(last, r) then h + [r]
      else if last.ts == r.ts && last.id == r.id then init + [r]
      else Insert(init, r) + [last]
  }

  /** The records before time `t`. */
  function Before(h: History, t: nat): History {
    if h == [] || h[|h| - 1].ts < t then h else Before(h[..|h| - 1], t)
  }

  /** The record at `i` is the current state of its node. */
  predicate Current(h: History, i: nat)
    requires i < |h|
  {
    forall j | i < j < |h| :: h[j].id != h[i].id
  }

  function AcceptedAt(h: History): set<nat> {
    set i | 0 <= i < |h| && Current(h, i) && h[i].state.Accepted?
  }

  /** `i` is the earliest accepted node. */
  predicate Earliest(h: History, i: nat) {
    i in AcceptedAt(h) && forall j <- AcceptedAt(h) :: i <= j
  }

  predicate Recorded(h: History, tx: Hash) {
    exists r <- h :: r.tx == tx
  }

  // ----- kernel guards and store checks

  datatype Operation = Operation(kind: NodeState, ts: nat, id: Id, tx: Hash)

  predicate InWindow(epoch: nat, ts: nat) {
    ts >= epoch && TIME_BEGIN <= (ts - epoch) / HOUR % 24 <= TIME_END
  }

  predicate Settled(h: History) {
    forall i | 0 <= i < |h| && Current(h, i) :: !h[i].state.Pledging?
  }

  /** Every current record is at least twelve hours old. */
  predicate Aged(h: History, ts: nat) {
    forall i | 0 <= i < |h| && Current(h, i) :: h[i].ts + PERIOD <= ts
  }

  predicate PledgeGuard(h: History, epoch: nat, ts: nat, id: Id) {
    var p := Before(h, ts + PERIOD);
    ts >= epoch && Aged(p, ts) && Settled(p) && forall r <- p :: r.id != id
  }

  predicate PledgeStore(h: History, ts: nat, id: Id, tx: Hash) {
    var p := Before(h, ts + PERIOD + 1);
    Settled(p) && forall i | 0 <= i < |p| && Current(p, i) :: p[i].id != id && p[i].tx != tx
  }

  /** The pledging node is in its accept or cancel period. */
  predicate InPeriod(h: History, epoch: nat, ts: nat) {
    var p := Before(h, ts);
    && p != [] && p[|p| - 1].state.Pledging? && InWindow(epoch, ts)
    && p[|p| - 1].ts + PERIOD <= ts <= p[|p| - 1].ts + ACCEPT_PERIOD_MAXIMUM
  }

  predicate AcceptGuard(h: History, epoch: nat, ts: nat, id: Id) {
    InPeriod(h, epoch, ts) && var p := Before(h, ts); p[|p| - 1].id == id
  }

  /** Accepting and cancelling both need the last record to be the node's pledge. */
  predicate ResolveStore(h: History, ts: nat, id: Id) {
    var p := Before(h, ts + PERIOD + 1);
    p != [] && p[|p| - 1].state.Pledging? && p[|p| - 1].id == id
  }

  predicate RemoveGuard(h: History, epoch: nat, ts: nat, id: Id) {
    var p := Before(h, ts);
    && (p != [] ==> !p[|p| - 1].state.Pledging?)
    && InWindow(epoch, ts) && Aged(p, ts) && Settled(p)
    && |AcceptedAt(p)| > MINIMUM_NODES
    && exists i <- AcceptedAt(p) :: Earliest(p, i) && p[i].id == id
  }

  predicate RemoveStore(h: History, ts: nat, id: Id) {
    var p := Before(h, ts + PERIOD + 1);
    && p != [] && !p[|p| - 1].state.Pledging?
    && exists i <- AcceptedAt(p) :: p[i].id == id
  }

  predicate Passes(h: History, epoch: nat, op: Operation) {
    match op.kind
    case Pledging => PledgeGuard(h, epoch, op.ts, op.id) && PledgeStore(h, op.ts, op.id, op.tx)
    case Accepted => AcceptGuard(h, epoch, op.ts, op.id) && ResolveStore(h, op.ts, op.id)
    case Cancelled => InPeriod(h, epoch, op.ts) && ResolveStore(h, op.ts, op.id)
    case Removed => RemoveGuard(h, epoch, op.ts, op.id) && RemoveStore(h, op.ts, op.id)
  }

  /** A transaction is finalised, and so recorded, once. */
  function Apply(h: History, epoch: nat, op: Operation): History {
    if Recorded(h, op.tx) || !Passes(h, epoch, op) then h
    else Insert(h, Record(op.id, op.tx, op.ts, op.kind))
  }

  // ----- the automaton the guards are meant to enforce

  predicate GenesisRecords(h: History, epoch: nat) {
    && |h| >= MINIMUM_NODES
    && (forall r <- h :: r.state.Accepted? && r.ts == epoch)
    && (forall i, j | 0 <= i < j < |h| :: h[i].id < h[j].id)
  }

  predicate Next(h: History, r: Record) {
    h != [] &&
    var last := h[|h| - 1];
    last.ts + PERIOD <= r.ts &&
    match r.state
    case Pledging => !last.state.Pledging? && forall q <- h :: q.id != r.id
    case Accepted => last.state.Pledging? && last.id == r.id
    case Cancelled => last.state.Pledging? && last.id == r.id
    case Removed =>
      && !last.state.Pledging? && |AcceptedAt(h)| > MINIMUM_NODES
      && exists i <- AcceptedAt(h) :: Earliest(h, i) && h[i].id == r.id
  }

  /** Histories of the automaton that start from `g` genesis records. */
  predicate Lawful(h: History, epoch: nat, g: nat) {
    if |h| <= g then |h| == g && GenesisRecords(h, epoch)
    else Lawful(h[..|h| - 1], epoch, g) && Next(h[..|h| - 1], h[|h| - 1])
  }

  lemma {:induction false} LawfulPrefix(h: History, epoch: nat, g: nat, n: nat)
    requires Lawful(h, epoch, g) && g <= n <= |h|
    ensures Lawful(h[..n], epoch, g)
    ensures n < |h| ==> Next(h[..n], h[n])
    decreases |h|
  {
    if n < |h| {
      var init := h[..|h| - 1];
      assert init[..n] == h[..n];
      LawfulPrefix(init, epoch, g, n);
    } else {
      assert h[..n] == h;
    }
  }

  lemma {:induction false} LawfulSize(h: History, epoch: nat, g: nat)
    requires Lawful(h, epoch, g)
    ensures MINIMUM_NODES <= g <= |h|
    decreases |h|
  {
    if |h| > g {
      LawfulSize(h[..|h| - 1], epoch, g);
    }
  }

  /** Timestamps never decrease, and beyond genesis they are twelve hours apart. */
  lemma {:induction false} LawfulOrder(h: History, epoch: nat, g: nat)
    requires Lawful(h, epoch, g)
    ensures forall i, j | 0 <= i <= j < |h| :: h[i].ts <= h[j].ts
    ensures forall i, j | 0 <= i < j < |h| && g <= j :: h[i].ts + PERIOD <= h[j].ts
    decreases |h|
  {
    if |h| > g {
      LawfulOrder(h[..|h| - 1], epoch, g);
    }
  }

  lemma {:induction false} BeforeMeaning(h: History, epoch: nat, g: nat, t: nat)
    requires Lawful(h, epoch, g)
    ensures var n := |Before(h, t)|;
            && n <= |h| && Before(h, t) == h[..n]
            && (forall i | 0 <= i < n :: h[i].ts < t)
            && (forall i | n <= i < |h| :: h[i].ts >= t)
  {
    LawfulOrder(h, epoch, g);
    BeforeSorted(h, t);
  }

  lemma {:induction false} BeforeSorted(h: History, t: nat)
    requires forall i, j | 0 <= i <= j < |h| :: h[i].ts <= h[j].ts
    ensures var n := |Before(h, t)|;
            && n <= |h| && Before(h, t) == h[..n]
            && (forall i | 0 <= i < n :: h[i].ts < t)
            && (forall i | n <= i < |h| :: h[i].ts >= t)
    decreases |h|
  {
    if h != [] && h[|h| - 1].ts >= t {
      BeforeSorted(h[..|h| - 1], t);
    }
  }

  // ----- what lawful histories are like

  lemma {:induction false} CurrentStep(h: History, r: Record, i: nat)
    requires i < |h|
    ensures Current(h + [r], i) <==> Current(h, i) && h[i].id != r.id
  {
    var h' := h + [r];
    assert h'[|h|] == r && forall j | 0 <= j < |h| :: h'[j] == h[j];
    if Current(h', i) {
      forall j | i < j < |h|
        ensures h[j].id != h[i].id
      {
        assert h'[j].id != h'[i].id;
      }
    }
  }

  /** How an appended record changes the set of accepted nodes. */
  lemma {:induction false} AcceptedStep(h: History, r: Record)
    ensures AcceptedAt(h + [r]) ==
            (set i <- AcceptedAt(h) | h[i].id != r.id) + (if r.state.Accepted? then {|h|} else {})
  {
    forall i: nat | i < |h|
      ensures Current(h + [r], i) <==> Current(h, i) && h[i].id != r.id
    {
      CurrentStep(h, r, i);
    }
    assert Current(h + [r], |h|);
  }

  /** The number of accepted nodes never drops below the minimum. */
  lemma {:induction false} EnoughAccepted(h: History, epoch: nat, g: nat)
    requires Lawful(h, epoch, g)
    ensures |AcceptedAt(h)| >= MINIMUM_NODES
    decreases |h|
  {
    if |h| <= g {
      GenesisAccepted(h);
    } else {
      var init, r := h[..|h| - 1], h[|h| - 1];
      EnoughAccepted(init, epoch, g);
      AcceptedStep(init, r);
      assert h == init + [r];
      var kept := set i <- AcceptedAt(init) | init[i].id != r.id;
      if r.state.Removed? {
        var e :| e in AcceptedAt(init) && init[e].id == r.id;
        assert forall i <- AcceptedAt(init) :: init[i].id == r.id ==> i == e;
        assert kept == AcceptedAt(init) - {e};
      } else {
        if !r.state.Pledging? {
          assert forall i <- AcceptedAt(init) :: i < |init| - 1;
        }
        assert kept == AcceptedAt(init);
      }
    }
  }

  lemma {:induction false} GenesisAccepted(h: History)
    requires forall r <- h :: r.state.Accepted?
    requires forall i, j | 0 <= i < j < |h| :: h[i].id < h[j].id
    ensures (forall i: nat | i < |h| :: i in AcceptedAt(h)) && |AcceptedAt(h)| == |h|
  {
    forall i: nat | i < |h|
      ensures Current(h, i) && h[i].state.Accepted?
    {
      assert h[i] in h;
    }
    assert AcceptedAt(h) == Range(|h|);
  }

  function Range(n: nat): (r: set<nat>)
    ensures |r| == n && forall i: nat :: i in r <==> i < n
  {
    if n == 0 then {} else Range(n - 1) + {n - 1}
  }

  /** The states one node goes through. */
  function StatesOf(h: History, id: Id): seq<NodeState> {
    if h == [] then []
    else
      var last := h[|h| - 1];
      StatesOf(h[..|h| - 1], id) + (if last.id == id then [last.state] else [])
  }

  predicate LegalStates(s: seq<NodeState>) {
    || s == []
    || (s[0] == Pledging &&
        (|s| == 1 || s[1..] == [Cancelled] || s[1..] == [Accepted] || s[1..] == [Accepted, Removed]))
    || (s[0] == Accepted && (|s| == 1 || s[1..] == [Removed]))
  }

  /** Legal continuations, by the last state. */
  lemma {:induction false} LegalStep(s: seq<NodeState>, x: NodeState)
    requires LegalStates(s) && s != []
    requires var last := s[|s| - 1];
             (last.Pledging? && (x.Accepted? || x.Cancelled?)) || (last.Accepted? && x.Removed?)
    ensures LegalStates(s + [x])
  {
    assert (s + [x])[1..] == s[1..] + [x];
  }

  lemma {:induction false} StatesEnd(h: History, id: Id, i: nat)
    requires i < |h| && Current(h, i) && h[i].id == id
    ensures StatesOf(h, id) != [] && StatesOf(h, id)[|StatesOf(h, id)| - 1] == h[i].state
    decreases |h|
  {
    if i < |h| - 1 {
      StatesEnd(h[..|h| - 1], id, i);
    }
  }

  lemma {:induction false} StatesNone(h: History, id: Id)
    requires forall r <- h :: r.id != id
    ensures StatesOf(h, id) == []
    decreases |h|
  {
    if h != [] {
      assert h[|h| - 1] in h;
      assert forall r <- h[..|h| - 1] :: r in h;
      StatesNone(h[..|h| - 1], id);
    }
  }

  lemma {:induction false} GenesisStates(h: History, epoch: nat, id: Id)
    requires forall r <- h :: r.state.Accepted?
    requires forall i, j | 0 <= i < j < |h| :: h[i].id < h[j].id
    ensures StatesOf(h, id) in {[], [Accepted]}
    decreases |h|
  {
    if h != [] {
      var init, last := h[..|h| - 1], h[|h| - 1];
      assert last in h;
      assert forall r <- init :: r in h;
      if last.id == id {
        StatesNone(init, id);
        assert StatesOf(h, id) == [Accepted];
      } else {
        GenesisStates(init, epoch, id);
        assert StatesOf(h, id) == StatesOf(init, id);
      }
    }
  }

  /** Every node is pledging then cancelled, or pledging then accepted then removed, or a
      genesis node; each possibly cut short. */
  lemma {:induction false} NodeHistories(h: History, epoch: nat, g: nat, id: Id)
    requires Lawful(h, epoch, g)
    ensures LegalStates(StatesOf(h, id))
    decreases |h|
  {
    if |h| <= g {
      GenesisStates(h, epoch, id);
    } else {
      var init, r := h[..|h| - 1], h[|h| - 1];
      NodeHistories(init, epoch, g, id);
      if r.id == id {
        assert StatesOf(h, id) == StatesOf(init, id) + [r.state];
        match r.state
        case Pledging => StatesNone(init, id);
        case Removed =>
          var e :| e in AcceptedAt(init) && init[e].id == id;
          StatesEnd(init, id, e);
          LegalStep(StatesOf(init, id), r.state);
        case _ =>
          StatesEnd(init, id, |init| - 1);
          LegalStep(StatesOf(init, id), r.state);
      } else {
        assert StatesOf(h, id) == StatesOf(init, id);
      }
    }
  }

  ghost predicate PledgingIsLast(h: History) {
    forall i | 0 <= i < |h| && Current(h, i) && h[i].state.Pledging? :: i == |h| - 1
  }

  /** At most one node is pledging, and its record is the latest. */
  lemma {:induction false} OnePledging(h: History, epoch: nat, g: nat)
    requires Lawful(h, epoch, g)
    ensures PledgingIsLast(h)
    decreases |h|
  {
    if |h| > g {
      var init, r := h[..|h| - 1], h[|h| - 1];
      OnePledging(init, epoch, g);
      forall i | 0 <= i < |h| - 1 && Current(h, i)
        ensures !h[i].state.Pledging?
      {
        assert Current(init, i);
        assert h[|h| - 1].id != h[i].id;
      }
    }
  }

  // ----- the guards enforce the automaton, on time

  /** No record lies twelve hours or more after the operation's own time. */
  predicate Timely(h: History, ts: nat) {
    forall r <- h :: r.ts < ts + PERIOD
  }

  lemma {:induction false} LastIsCurrent(h: History)
    requires h != []
    ensures Current(h, |h| - 1)
  {
  }

  lemma {:induction false} BeforeAll(h: History, t: nat)
    requires forall r <- h :: r.ts < t
    ensures Before(h, t) == h
  {
    if h != [] {
      assert h[|h| - 1] in h;
    }
  }

  lemma {:induction false} AppendLast(h: History, r: Record)
    requires h != [] && h[|h| - 1].ts < r.ts
    ensures Insert(h, r) == h + [r]
  {
  }

  lemma {:induction false} PledgeTimely(h: History, epoch: nat, g: nat, op: Operation)
    requires Lawful(h, epoch, g) && op.kind.Pledging? && Passes(h, epoch, op) && Timely(h, op.ts)
    ensures Next(h, Record(op.id, op.tx, op.ts, op.kind))
  {
    LawfulSize(h, epoch, g);
    BeforeAll(h, op.ts + PERIOD);
    LastIsCurrent(h);
  }

  lemma {:induction false} GenesisTimes(h: History, epoch: nat, g: nat)
    requires Lawful(h, epoch, g)
    ensures g <= |h| && forall i | 0 <= i < g :: h[i].ts == epoch && h[i].state.Accepted?
  {
    LawfulSize(h, epoch, g);
    LawfulPrefix(h, epoch, g, g);
    assert forall i | 0 <= i < g :: h[i] == h[..g][i];
  }

  /** A view of the history is either nothing or at least the genesis nodes. */
  lemma {:induction false} GenesisSeen(h: History, epoch: nat, g: nat, t: nat)
    requires Lawful(h, epoch, g) && Before(h, t) != []
    ensures |Before(h, t)| >= g
  {
    LawfulSize(h, epoch, g);
    GenesisTimes(h, epoch, g);
    BeforeMeaning(h, epoch, g, t);
    var n := |Before(h, t)|;
    assert h[0].ts == epoch && (n < |h| ==> h[n].ts >= t);
  }

  /** What a timely guard can miss is one record, the next step of what it sees. */
  lemma {:induction false} MissedOne(h: History, epoch: nat, g: nat, ts: nat)
    requires Lawful(h, epoch, g) && Timely(h, ts) && Before(h, ts) != [] && Before(h, ts) != h
    ensures var p := Before(h, ts);
            |h| == |p| + 1 && h[..|p|] == p && Next(p, h[|p|])
  {
    BeforeMeaning(h, epoch, g, ts);
    LawfulOrder(h, epoch, g);
    GenesisSeen(h, epoch, g, ts);
    var n := |Before(h, ts)|;
    assert n < |h| by {
      assert h[..|h|] == h;
    }
    LawfulPrefix(h, epoch, g, n);
    assert h[|h| - 1] in h;
  }

  /** A record the guard misses is the resolution of the pledge it sees, or the removal of the
      node it would remove; either way the store refuses. */
  lemma {:induction false} MissedRefused(h: History, epoch: nat, g: nat, op: Operation)
    requires Lawful(h, epoch, g) && !op.kind.Pledging? && Timely(h, op.ts)
    requires Before(h, op.ts) != [] && Before(h, op.ts) != h
    ensures !Passes(h, epoch, op)
  {
    MissedOne(h, epoch, g, op.ts);
    BeforeAll(h, op.ts + PERIOD + 1);
    var n := |h| - 1;
    if op.kind.Removed? && RemoveGuard(h, epoch, op.ts, op.id) && !h[n].state.Pledging? {
      RemovedOnce(h, n, op.id);
    }
  }

  /** If the only record the guard misses is a removal, it is of the node the guard picks, and
      the store refuses to remove it twice. */
  lemma {:induction false} RemovedOnce(h: History, n: nat, id: Id)
    requires |h| == n + 1 && Next(h[..n], h[n])
    requires h[..n] != [] && !h[n - 1].state.Pledging?
    requires exists i <- AcceptedAt(h[..n]) :: Earliest(h[..n], i) && h[..n][i].id == id
    requires !h[n].state.Pledging?
    ensures h[n].state.Removed? && h[n].id == id
    ensures forall i <- AcceptedAt(h) :: h[i].id != id
  {
    var i :| i in AcceptedAt(h[..n]) && Earliest(h[..n], i) && h[..n][i].id == id;
    var j :| j in AcceptedAt(h[..n]) && Earliest(h[..n], j) && h[..n][j].id == h[n].id;
    assert i == j;
    assert h == h[..n] + [h[n]];
    AcceptedStep(h[..n], h[n]);
  }

  lemma {:induction false} LaterTimely(h: History, epoch: nat, g: nat, op: Operation)
    requires Lawful(h, epoch, g) && !op.kind.Pledging? && Passes(h, epoch, op) && Timely(h, op.ts)
    ensures Next(h, Record(op.id, op.tx, op.ts, op.kind))
  {
    LawfulSize(h, epoch, g);
    assert Before(h, op.ts) != [];
    if Before(h, op.ts) != h {
      MissedRefused(h, epoch, g, op);
    }
    BeforeAll(h, op.ts + PERIOD + 1);
    LastIsCurrent(h);
  }

  /** Whatever the guards and the store let through on time is a step of the automaton. */
  lemma {:induction false} ApplyLawful(h: History, epoch: nat, g: nat, op: Operation)
    requires Lawful(h, epoch, g) && Timely(h, op.ts)
    ensures Lawful(Apply(h, epoch, op), epoch, g)
    ensures Apply(h, epoch, op) == h || Apply(h, epoch, op) == h + [Record(op.id, op.tx, op.ts, op.kind)]
  {
    LawfulSize(h, epoch, g);
    if !Recorded(h, op.tx) && Passes(h, epoch, op) {
      var r := Record(op.id, op.tx, op.ts, op.kind);
      if op.kind.Pledging? {
        PledgeTimely(h, epoch, g, op);
      } else {
        LaterTimely(h, epoch, g, op);
      }
      AppendLast(h, r);
      assert (h + [r])[..|h|] == h;
    }
  }

  function Run(h: History, epoch: nat, ops: seq<Operation>): History
    decreases |ops|
  {
    if ops == [] then h else Apply(Run(h, epoch, ops[..|ops| - 1]), epoch, ops[|ops| - 1])
  }

  // ----- late pledges

  lemma {:induction false} InsertAt(h: History, r: Record, k: nat)
    requires k <= |h|
    requires forall i | 0 <= i < k :: Precedes(h[i], r)
    requires forall i | k <= i < |h| :: Precedes(r, h[i])
    ensures Insert(h, r) == h[..k] + [r] + h[k..]
    decreases |h|
  {
    if k < |h| {
      var init := h[..|h| - 1];
      InsertAt(init, r, k);
      assert h[..k] == init[..k] && h[k..] == init[k..] + [h[|h| - 1]];
    }
  }

  /** One pledge for each node, and only the latest record may be an open one. */
  ghost predicate OrderlyPledges(h: History) {
    && PledgingIsLast(h)
    && (forall i, j | 0 <= i < j < |h| && h[i].state.Pledging? && h[j].state.Pledging? :: h[i].id != h[j].id)
  }

  lemma {:induction false} LawfulPledges(h: History, epoch: nat, g: nat)
    requires Lawful(h, epoch, g)
    ensures forall i, j | 0 <= i < j < |h| && h[i].state.Pledging? && h[j].state.Pledging? :: h[i].id != h[j].id
    decreases |h|
  {
    if |h| > g {
      var init, r := h[..|h| - 1], h[|h| - 1];
      LawfulPledges(init, epoch, g);
      forall i | 0 <= i < |h| - 1 && r.state.Pledging?
        ensures h[i].id != r.id
      {
        assert h[i] in init;
      }
      assert forall i | 0 <= i < |h| - 1 :: h[i] == init[i];
    }
  }

  /** The first record of a node that is not of genesis is its pledge. */
  lemma {:induction false} FirstIsPledge(h: History, epoch: nat, g: nat, k: nat)
    requires Lawful(h, epoch, g) && g <= k < |h|
    requires forall i | 0 <= i < k :: h[i].id != h[k].id
    ensures h[k].state.Pledging?
  {
    LawfulSize(h, epoch, g);
    LawfulPrefix(h, epoch, g, k);
    var p := h[..k];
    assert p[|p| - 1].id != h[k].id;
    assert forall i <- AcceptedAt(p) :: p[i] == h[i];
  }

  /** A pledge that kernel and store let through keeps the pledges orderly if and only if it is
      on time: a record twelve hours or more ahead is beyond what either looks at. */
  lemma {:induction false} PledgeOrderlyIff(h: History, epoch: nat, g: nat, op: Operation)
    requires Lawful(h, epoch, g) && op.kind.Pledging? && !Recorded(h, op.tx) && Passes(h, epoch, op)
    ensures OrderlyPledges(Apply(h, epoch, op)) <==> Timely(h, op.ts)
  {
    if Timely(h, op.ts) {
      ApplyLawful(h, epoch, g, op);
      LawfulPledges(Apply(h, epoch, op), epoch, g);
      OnePledging(Apply(h, epoch, op), epoch, g);
    } else {
      LatePledge(h, epoch, g, op);
    }
  }

  lemma {:induction false} LatePlace(h: History, epoch: nat, g: nat, op: Operation, k: nat)
    requires Lawful(h, epoch, g) && PledgeGuard(h, epoch, op.ts, op.id)
    requires k == |Before(h, op.ts + PERIOD)|
    ensures g <= k <= |h| && (forall i | 0 <= i < k :: h[i].id != op.id)
    ensures Insert(h, Record(op.id, op.tx, op.ts, op.kind)) == h[..k] + [Record(op.id, op.tx, op.ts, op.kind)] + h[k..]
  {
    LateView(h, epoch, g, op, k);
    InsertAt(h, Record(op.id, op.tx, op.ts, op.kind), k);
  }

  lemma {:induction false} LateView(h: History, epoch: nat, g: nat, op: Operation, k: nat)
    requires Lawful(h, epoch, g) && PledgeGuard(h, epoch, op.ts, op.id)
    requires k == |Before(h, op.ts + PERIOD)|
    ensures g <= k <= |h|
    ensures forall i | 0 <= i < k :: h[i].id != op.id && h[i].ts < op.ts
    ensures forall i | k <= i < |h| :: h[i].ts > op.ts
  {
    GenesisBefore(h, epoch, g, op.ts + PERIOD);
    LawfulSize(h, epoch, g);
    LawfulOrder(h, epoch, g);
    BeforeSorted(h, op.ts + PERIOD);
    AgedOthers(h, Before(h, op.ts + PERIOD), op.ts, op.id);
  }

  lemma {:induction false} AgedOthers(h: History, p: History, ts: nat, id: Id)
    requires p != [] && |p| <= |h| && p == h[..|p|] && Aged(p, ts) && forall r <- p :: r.id != id
    requires forall i, j | 0 <= i <= j < |h| :: h[i].ts <= h[j].ts
    ensures forall i | 0 <= i < |p| :: h[i].id != id && h[i].ts < ts
  {
    LastIsCurrent(p);
    forall i | 0 <= i < |p|
      ensures h[i].id != id && h[i].ts < ts
    {
      assert h[i] == p[i] && p[i] in p;
    }
  }

  lemma {:induction false} GenesisBefore(h: History, epoch: nat, g: nat, t: nat)
    requires Lawful(h, epoch, g) && epoch < t
    ensures g <= |Before(h, t)|
  {
    GenesisTimes(h, epoch, g);
    BeforeMeaning(h, epoch, g, t);
    var k := |Before(h, t)|;
    assert k < |h| ==> h[k].ts >= t;
  }

  lemma {:induction false} LateOpen(h: History, r: Record, k: nat)
    requires k < |h| && r.state.Pledging? && forall m | k <= m < |h| :: h[m].id != r.id
    ensures !PledgingIsLast(h[..k] + [r] + h[k..])
  {
    var h' := h[..k] + [r] + h[k..];
    assert h'[k] == r && forall m | k < m < |h'| :: h'[m] == h[m - 1];
    assert Current(h', k);
  }

  lemma {:induction false} LateTwice(h: History, r: Record, k: nat, j: nat)
    requires k <= j < |h| && r.state.Pledging? && h[j].state.Pledging? && h[j].id == r.id
    ensures !OrderlyPledges(h[..k] + [r] + h[k..])
  {
    var h' := h[..k] + [r] + h[k..];
    assert h'[k] == r && h'[j + 1] == h[j];
  }

  lemma {:induction false} LatePledge(h: History, epoch: nat, g: nat, op: Operation)
    requires Lawful(h, epoch, g) && op.kind.Pledging? && !Recorded(h, op.tx) && Passes(h, epoch, op)
    requires !Timely(h, op.ts)
    ensures !OrderlyPledges(Apply(h, epoch, op))
  {
    var k, r := |Before(h, op.ts + PERIOD)|, Record(op.id, op.tx, op.ts, op.kind);
    LatePlace(h, epoch, g, op, k);
    BeforeMeaning(h, epoch, g, op.ts + PERIOD);
    assert k < |h|;
    if i :| k <= i < |h| && h[i].id == op.id {
      var j := FirstOf(h, k, i);
      FirstIsPledge(h, epoch, g, j);
      LateTwice(h, r, k, j);
    } else {
      LateOpen(h, r, k);
    }
  }

  /** The first record of a node at or after `k`. */
  lemma {:induction false} FirstOf(h: History, k: nat, i: nat) returns (j: nat)
    requires k <= i < |h|
    ensures k <= j <= i && h[j].id == h[i].id && forall m | k <= m < j :: h[m].id != h[i].id
  {
    j := k;
    while h[j].id != h[i].id
      invariant k <= j <= i && forall m | k <= m < j :: h[m].id != h[i].id
      decreases i - j
    {
      j := j + 1;
    }
  }

  function ExampleNodes(): History { seq(8, (i: nat) => Record(i, i, 1, Accepted)) }

  function ExampleRemoval(): Operation { Operation(Removed, 1 + 110 * HOUR, 0, 8) }

  function ExamplePledge(): Operation { Operation(Pledging, 1 + 97 * HOUR, 9, 9) }

  /** The history after the removal. */
  function ExampleHistory(): History { ExampleNodes() + [Record(0, 8, 1 + 110 * HOUR, Removed)] }

  lemma {:induction false} ExampleGenesis(h: History)
    requires h == ExampleNodes()
    ensures GenesisRecords(h, 1) && Earliest(h, 0) && h[0].id == 0 && |AcceptedAt(h)| == 8
    ensures forall r <- h :: r.ts == 1 && r.tx < 8
  {
    assert GenesisRecords(h, 1);
    GenesisAccepted(h);
  }

  lemma {:induction false} ExampleRemovalPasses(h: History)
    requires h == ExampleNodes()
    ensures Passes(h, 1, ExampleRemoval()) && Apply(h, 1, ExampleRemoval()) == ExampleHistory()
  {
    var op := ExampleRemoval();
    ExampleGenesis(h);
    BeforeAll(h, op.ts);
    BeforeAll(h, op.ts + PERIOD + 1);
    assert InWindow(1, op.ts);
    AppendLast(h, Record(0, 8, op.ts, Removed));
  }

  lemma {:induction false} ExamplePledgePasses(h: History)
    requires h == ExampleHistory()
    ensures Passes(h, 1, ExamplePledge()) && !Recorded(h, 9) && !Timely(h, 1 + 97 * HOUR)
  {
    var op := ExamplePledge();
    BeforeSorted(h, op.ts + PERIOD);
    BeforeSorted(h, op.ts + PERIOD + 1);
    assert h[..8] == ExampleNodes() && h[8].ts == 1 + 110 * HOUR;
    assert Before(h, op.ts + PERIOD) == ExampleNodes();
    assert Before(h, op.ts + PERIOD + 1) == ExampleNodes();
    assert h[8] in h;
  }

  lemma {:induction false} ExampleBreaks(h: History)
    requires h == ExampleHistory()
    ensures OrderlyPledges(h) && Passes(h, 1, ExamplePledge()) && !OrderlyPledges(Apply(h, 1, ExamplePledge()))
  {
    ExampleGenesis(ExampleNodes());
    ExampleRemovalPasses(ExampleNodes());
    ApplyLawful(ExampleNodes(), 1, 8, ExampleRemoval());
    OnePledging(h, 1, 8);
    LawfulPledges(h, 1, 8);
    ExamplePledgePasses(h);
    LatePledge(h, 1, 8, ExamplePledge());
  }

  lemma {:induction false} RunTwo(h: History, epoch: nat, a: Operation, b: Operation)
    ensures Run(h, epoch, [a]) == Apply(h, epoch, a) && Run(h, epoch, [a, b]) == Apply(Apply(h, epoch, a), epoch, b)
  {
    assert [a][..0] == [] && [a, b][..1] == [a];
  }

  /** Eight genesis nodes, the removal of one, then a pledge with a timestamp thirteen hours before
      that removal: guards and store let both through. */
  lemma {:induction false} LatePledgeExample()
    ensures var h, removal, late := ExampleNodes(), ExampleRemoval(), ExamplePledge();
            && GenesisRecords(h, 1) && Passes(h, 1, removal) && Passes(Run(h, 1, [removal]), 1, late)
            && OrderlyPledges(Run(h, 1, [removal])) && !OrderlyPledges(Run(h, 1, [removal, late]))
  {
    ExampleGenesis(ExampleNodes());
    ExampleRemovalPasses(ExampleNodes());
    ExampleBreaks(ExampleHistory());
    RunTwo(ExampleNodes(), 1, ExampleRemoval(), ExamplePledge());
  }
}
