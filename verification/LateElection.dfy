/** Operations that are finalised late: after a record twelve hours or more ahead of them, which
    neither the kernel guard nor the store check looks at. */
module LateElection {
  import opened Election

  function RecordOf(op: Operation): Record { Record(op.id, op.tx, op.ts, op.kind) }

  /** The operation is recorded. */
  predicate Effective(h: History, epoch: nat, op: Operation) {
    !Recorded(h, op.tx) && Passes(h, epoch, op)
  }

  /** What follows `ts` leaves it twelve hours and removes nobody. */
  predicate Harmless(h: History, ts: nat) {
    forall r <- h | r.ts >= ts :: r.ts >= ts + PERIOD && !r.state.Removed?
  }

  /** On time, or a removal that nothing later depends on. */
  predicate Safe(h: History, op: Operation) {
    Timely(h, op.ts) || (op.kind.Removed? && Harmless(h, op.ts))
  }

  // ----- ways not to be lawful

  lemma {:induction false} BrokenStep(h: History, epoch: nat, g: nat, k: nat)
    requires g <= k < |h| && !Next(h[..k], h[k])
    ensures !Lawful(h, epoch, g)
  {
    if Lawful(h, epoch, g) {
      LawfulPrefix(h, epoch, g, k);
    }
  }

  lemma {:induction false} TooClose(h: History, epoch: nat, g: nat, k: nat)
    requires 0 < k < |h| && g <= k && h[k - 1].ts + PERIOD > h[k].ts
    ensures !Lawful(h, epoch, g)
  {
    if Lawful(h, epoch, g) {
      LawfulOrder(h, epoch, g);
    }
  }

  /** The place of a record in a lawful history whose later records come after it. */
  lemma {:induction false} PlaceBetween(h: History, epoch: nat, g: nat, r: Record, n: nat)
    requires Lawful(h, epoch, g) && g <= n <= |h|
    requires forall i | 0 <= i < n :: h[i].ts < r.ts
    requires n < |h| ==> h[n].ts > r.ts
    ensures Insert(h, r) == h[..n] + [r] + h[n..]
  {
    LawfulOrder(h, epoch, g);
    InsertAt(h, r, n);
  }

  /** A record less than twelve hours before the next one. */
  lemma {:induction false} Crowded(h: History, epoch: nat, g: nat, r: Record, n: nat)
    requires Lawful(h, epoch, g) && g <= n < |h|
    requires forall i | 0 <= i < n :: h[i].ts < r.ts
    requires r.ts <= h[n].ts < r.ts + PERIOD && h[n].id != r.id
    ensures !Lawful(Insert(h, r), epoch, g)
  {
    LawfulOrder(h, epoch, g);
    var k := if Precedes(h[n], r) then n + 1 else n;
    InsertAt(h, r, k);
    var h' := h[..k] + [r] + h[k..];
    assert h'[k] == r;
    assert k == n ==> h'[n + 1] == h[n];
    assert k == n + 1 ==> h'[n] == h[n];
    TooClose(h', epoch, g, n + 1);
  }

  // ----- late accepts and cancels

  /** What the guard and the store see of a lawful history. */
  lemma {:induction false} Views(h: History, epoch: nat, g: nat, ts: nat, n: nat)
    requires Lawful(h, epoch, g) && n == |Before(h, ts)| && n > 0 && !Timely(h, ts)
    ensures g <= n < |h| && Before(h, ts) == h[..n] && Next(h[..n], h[n])
    ensures forall i | 0 <= i < n :: h[i].ts < ts
    ensures forall i | n <= i < |h| :: h[i].ts >= ts
  {
    BeforeMeaning(h, epoch, g, ts);
    GenesisSeen(h, epoch, g, ts);
    LawfulPrefix(h, epoch, g, n);
  }

  /** If the record right after the view has the time of the operation, the store let it through
      for another node. */
  lemma {:induction false} OtherPledge(h: History, epoch: nat, g: nat, op: Operation, n: nat)
    requires Lawful(h, epoch, g) && 0 < n < |h| && h[n - 1].state.Pledging? && h[n].id == h[n - 1].id &&
             !h[n].state.Pledging?
    requires ResolveStore(h, op.ts, op.id) && h[n].ts <= op.ts + PERIOD
    ensures h[n].id != op.id
  {
    BeforeMeaning(h, epoch, g, op.ts + PERIOD + 1);
    LawfulPledges(h, epoch, g);
    var m := |Before(h, op.ts + PERIOD + 1)|;
    assert n < m && h[m - 1].state.Pledging? && h[m - 1].id == op.id;
  }

  lemma {:induction false} LateResolution(h: History, epoch: nat, g: nat, op: Operation)
    requires Lawful(h, epoch, g) && (op.kind.Accepted? || op.kind.Cancelled?) && Passes(h, epoch, op)
    requires !Timely(h, op.ts)
    ensures !Lawful(Insert(h, RecordOf(op)), epoch, g)
  {
    var n, r := |Before(h, op.ts)|, RecordOf(op);
    Views(h, epoch, g, op.ts, n);
    assert h[..n][n - 1] == h[n - 1];
    if h[n].ts < op.ts + PERIOD {
      OtherPledge(h, epoch, g, op, n);
      Crowded(h, epoch, g, r, n);
    } else {
      PlaceBetween(h, epoch, g, r, n);
      var h' := h[..n] + [r] + h[n..];
      assert h'[..n + 1] == h[..n] + [r] && h'[n + 1] == h[n];
      BrokenStep(h', epoch, g, n + 1);
    }
  }

  // ----- late removals

  /** A removed node never comes back. */
  lemma {:induction false} RemovedIsLast(h: History, epoch: nat, g: nat, m: nat)
    requires Lawful(h, epoch, g) && m < |h| && h[m].state.Removed?
    ensures forall j | m < j < |h| :: h[j].id != h[m].id
    decreases |h|
  {
    GenesisTimes(h, epoch, g);
    if m < |h| - 1 {
      var init, r := h[..|h| - 1], h[|h| - 1];
      RemovedIsLast(init, epoch, g, m);
      assert init[m] == h[m] && init[m] in init;
      assert forall i <- AcceptedAt(init) :: init[i].id != h[m].id;
      assert forall j | m < j < |h| - 1 :: init[j] == h[j];
    }
  }

  /** The store refuses a node removed before the record it sees last. */
  lemma {:induction false} OtherNode(h: History, epoch: nat, g: nat, op: Operation, n: nat)
    requires Lawful(h, epoch, g) && n < |h| && h[n].ts <= op.ts + PERIOD
    requires RemoveStore(h, op.ts, op.id)
    requires h[n].state.Removed?
    ensures h[n].id != op.id
  {
    BeforeMeaning(h, epoch, g, op.ts + PERIOD + 1);
    var q := Before(h, op.ts + PERIOD + 1);
    RemovedIsLast(h, epoch, g, n);
    assert q[n] == h[n];
    forall i <- AcceptedAt(q)
      ensures q[i].id != h[n].id
    {
      assert q[i] == h[i];
    }
  }

  /** The earliest accepted node stays that until it is removed. */
  lemma {:induction false} EarliestStays(h: History, epoch: nat, g: nat, n: nat, m: nat, e: nat)
    requires Lawful(h, epoch, g) && g <= n <= m <= |h| && Earliest(h[..n], e)
    requires forall i | n <= i < m :: !h[i].state.Removed?
    ensures Earliest(h[..m], e)
    decreases m
  {
    if n < m {
      EarliestStays(h, epoch, g, n, m - 1, e);
      LawfulPrefix(h, epoch, g, m - 1);
      var p, r := h[..m - 1], h[m - 1];
      AcceptedStep(p, r);
      assert h[..m] == p + [r];
      StillAccepted(p, r);
    }
  }

  lemma {:induction false} StillAccepted(p: History, r: Record)
    requires Next(p, r) && !r.state.Removed?
    ensures forall i <- AcceptedAt(p) :: p[i].id != r.id
  {
    forall i <- AcceptedAt(p)
      ensures p[i].id != r.id
    {
      if r.state.Pledging? {
        assert p[i] in p;
      } else {
        assert i < |p| - 1;
      }
    }
  }

  /** With a removal put in before it, a later removal of the same node is no step. */
  lemma {:induction false} RemovedTwice(h: History, n: nat, m: nat, r: Record, e: nat, h': History)
    requires n <= m < |h| && e < n && r.state.Removed? && Earliest(h[..m], e) && h[e].id == r.id
    requires h' == h[..n] + [r] + h[n..m]
    requires h[m].state.Removed? && Next(h[..m], h[m])
    ensures !Next(h', h[m])
  {
    var p := h[..m];
    var j :| j in AcceptedAt(p) && Earliest(p, j) && p[j].id == h[m].id;
    assert j == e && p[e] == h[e];
    assert h'[n] == r;
    forall i <- AcceptedAt(h')
      ensures h'[i].id != r.id
    {
      if i < n {
        assert h'[n].id != h'[i].id;
      } else if i > n {
        assert h'[i] == h[i - 1] == p[i - 1];
        assert p[i - 1].id != p[e].id;
      }
    }
  }

  lemma {:induction false} LateRemovalBreaks(h: History, epoch: nat, g: nat, r: Record, n: nat, m: nat)
    requires Lawful(h, epoch, g) && g <= n <= m < |h| && r.state.Removed? && Next(h[..n], r)
    requires h[m].state.Removed? && forall i | n <= i < m :: !h[i].state.Removed?
    ensures !Lawful(h[..n] + [r] + h[n..], epoch, g)
  {
    LaterRemovalFails(h, epoch, g, r, n, m);
    PutIn(h, r, n, m);
    BrokenStep(h[..n] + [r] + h[n..], epoch, g, m + 1);
  }

  lemma {:induction false} LaterRemovalFails(h: History, epoch: nat, g: nat, r: Record, n: nat, m: nat)
    requires Lawful(h, epoch, g) && g <= n <= m < |h| && r.state.Removed? && Next(h[..n], r)
    requires h[m].state.Removed? && forall i | n <= i < m :: !h[i].state.Removed?
    ensures !Next(h[..n] + [r] + h[n..m], h[m])
  {
    var e :| e in AcceptedAt(h[..n]) && Earliest(h[..n], e) && h[..n][e].id == r.id;
    EarliestStays(h, epoch, g, n, m, e);
    LawfulPrefix(h, epoch, g, m);
    RemovedTwice(h, n, m, r, e, h[..n] + [r] + h[n..m]);
  }

  lemma {:induction false} PutIn(h: History, r: Record, n: nat, m: nat)
    requires n <= m < |h|
    ensures var h' := h[..n] + [r] + h[n..];
            |h'| == |h| + 1 && h'[..m + 1] == h[..n] + [r] + h[n..m] && h'[m + 1] == h[m]
  {
  }

  /** A later record that is no removal is still a step after one that was put in. */
  lemma {:induction false} StillNext(p: History, r: Record, s: History, x: Record, h': History)
    requires h' == p + [r] + s && Next(p + s, x) && !x.state.Removed? && r.state.Removed?
    requires exists q <- p :: q.id == r.id
    requires s == [] ==> r.ts + PERIOD <= x.ts && p != [] && !p[|p| - 1].state.Pledging?
    ensures Next(h', x)
  {
    var q :| q in p && q.id == r.id;
    assert q in p + s;
    if s != [] {
      assert h'[|h'| - 1] == s[|s| - 1] == (p + s)[|p + s| - 1];
    } else {
      assert p + s == p && h'[|h'| - 1] == r;
    }
    assert forall y <- h' :: y == r || y in p + s;
  }

  /** The first `j` records with `r` put in after `n`. */
  function With(h: History, n: nat, r: Record, j: nat): History
    requires n <= j <= |h|
  {
    h[..n] + [r] + h[n..j]
  }

  lemma {:induction false} LateRemovalFits(h: History, epoch: nat, g: nat, r: Record, n: nat, j: nat)
    requires Lawful(h, epoch, g) && g <= n <= j <= |h| && r.state.Removed? && Next(h[..n], r)
    requires n < |h| ==> r.ts + PERIOD <= h[n].ts
    requires forall i | n <= i < |h| :: !h[i].state.Removed?
    ensures Lawful(With(h, n, r, j), epoch, g)
    decreases j
  {
    WithStep(h, n, r, j);
    if j == n {
      LawfulPrefix(h, epoch, g, n);
      OneMore(h[..n], r, epoch, g);
    } else {
      LateRemovalFits(h, epoch, g, r, n, j - 1);
      NextFits(h, epoch, g, r, n, j - 1);
      OneMore(With(h, n, r, j - 1), h[j - 1], epoch, g);
    }
  }

  lemma {:induction false} WithStep(h: History, n: nat, r: Record, j: nat)
    requires n <= j <= |h|
    ensures |With(h, n, r, j)| == j + 1
    ensures With(h, n, r, j) == if j == n then h[..n] + [r] else With(h, n, r, j - 1) + [h[j - 1]]
  {
  }

  lemma {:induction false} OneMore(h: History, r: Record, epoch: nat, g: nat)
    requires Lawful(h, epoch, g) && g <= |h| && Next(h, r)
    ensures Lawful(h + [r], epoch, g)
  {
    assert (h + [r])[..|h|] == h && |h + [r]| > g;
  }

  lemma {:induction false} NextFits(h: History, epoch: nat, g: nat, r: Record, n: nat, j: nat)
    requires Lawful(h, epoch, g) && g <= n <= j < |h| && r.state.Removed? && Next(h[..n], r)
    requires r.ts + PERIOD <= h[n].ts && !h[j].state.Removed?
    ensures Next(With(h, n, r, j), h[j])
  {
    var p, s := h[..n], h[n..j];
    LawfulPrefix(h, epoch, g, j);
    assert p + s == h[..j];
    var e :| e in AcceptedAt(p) && Earliest(p, e) && p[e].id == r.id;
    assert p[e] in p;
    StillNext(p, r, s, h[j], p + [r] + s);
  }

  lemma {:induction false} RemovalIsNext(h: History, epoch: nat, op: Operation)
    requires RemoveGuard(h, epoch, op.ts, op.id) && op.kind.Removed?
    ensures Before(h, op.ts) != [] && Next(Before(h, op.ts), RecordOf(op))
  {
    var p := Before(h, op.ts);
    var i :| i in AcceptedAt(p);
    LastIsCurrent(p);
  }

  lemma {:induction false} LateRemovalIff(h: History, epoch: nat, g: nat, op: Operation)
    requires Lawful(h, epoch, g) && op.kind.Removed? && Passes(h, epoch, op) && !Timely(h, op.ts)
    ensures Lawful(Insert(h, RecordOf(op)), epoch, g) <==> Harmless(h, op.ts)
  {
    var n, r := |Before(h, op.ts)|, RecordOf(op);
    RemovalIsNext(h, epoch, op);
    Views(h, epoch, g, op.ts, n);
    HarmlessMeans(h, op.ts, n);
    if h[n].ts < op.ts + PERIOD {
      MissedDiffers(h, epoch, g, op, n);
      Crowded(h, epoch, g, r, n);
    } else {
      LawfulOrder(h, epoch, g);
      RemovalPutIn(h, epoch, g, r, n);
    }
  }

  lemma {:induction false} HarmlessMeans(h: History, ts: nat, n: nat)
    requires n <= |h| && (forall i | 0 <= i < n :: h[i].ts < ts) && forall i | n <= i < |h| :: h[i].ts >= ts
    ensures Harmless(h, ts) <==> forall i | n <= i < |h| :: h[i].ts >= ts + PERIOD && !h[i].state.Removed?
  {
    assert forall i | n <= i < |h| :: h[i] in h;
  }

  lemma {:induction false} RemovalPutIn(h: History, epoch: nat, g: nat, r: Record, n: nat)
    requires Lawful(h, epoch, g) && g <= n < |h| && r.state.Removed? && Next(h[..n], r)
    requires (forall i | 0 <= i < n :: h[i].ts < r.ts) && r.ts + PERIOD <= h[n].ts
    ensures Lawful(Insert(h, r), epoch, g) <==> forall i | n <= i < |h| :: !h[i].state.Removed?
  {
    PlaceBetween(h, epoch, g, r, n);
    if i :| n <= i < |h| && h[i].state.Removed? {
      var m := FirstRemoved(h, n, i);
      LateRemovalBreaks(h, epoch, g, r, n, m);
    } else {
      LateRemovalFits(h, epoch, g, r, n, |h|);
      assert h[n..|h|] == h[n..];
    }
  }

  /** The record the guard misses is of another node. */
  lemma {:induction false} MissedDiffers(h: History, epoch: nat, g: nat, op: Operation, n: nat)
    requires Lawful(h, epoch, g) && 0 < n < |h| && Before(h, op.ts) == h[..n] && Next(h[..n], h[n])
    requires op.kind.Removed? && Passes(h, epoch, op) && h[n].ts < op.ts + PERIOD
    ensures h[n].id != op.id
  {
    var p := h[..n];
    if h[n].state.Removed? {
      OtherNode(h, epoch, g, op, n);
    } else {
      var i :| i in AcceptedAt(p) && Earliest(p, i) && p[i].id == op.id;
      assert p[i] in p;
    }
  }

  lemma {:induction false} FirstRemoved(h: History, n: nat, i: nat) returns (m: nat)
    requires n <= i < |h| && h[i].state.Removed?
    ensures n <= m <= i && h[m].state.Removed? && forall j | n <= j < m :: !h[j].state.Removed?
  {
    m := n;
    while !h[m].state.Removed?
      invariant n <= m <= i && forall j | n <= j < m :: !h[j].state.Removed?
      decreases i - m
    {
      m := m + 1;
    }
  }

  // ----- exactly when a recorded operation is a step of the automaton

  /** An operation that kernel and store let through leaves a lawful history if and only if it is
      on time, or a removal followed, twelve hours later at the earliest, by no other removal. */
  lemma {:induction false} ApplyLawfulIff(h: History, epoch: nat, g: nat, op: Operation)
    requires Lawful(h, epoch, g) && Effective(h, epoch, op)
    ensures Lawful(Apply(h, epoch, op), epoch, g) <==> Safe(h, op)
  {
    if Timely(h, op.ts) {
      ApplyLawful(h, epoch, g, op);
    } else {
      match op.kind
      case Pledging =>
        LatePledge(h, epoch, g, op);
        PledgesLawful(Apply(h, epoch, op), epoch, g);
      case Removed => LateRemovalIff(h, epoch, g, op);
      case _ => LateResolution(h, epoch, g, op);
    }
  }

  lemma {:induction false} PledgesLawful(h: History, epoch: nat, g: nat)
    ensures Lawful(h, epoch, g) ==> OrderlyPledges(h)
  {
    if Lawful(h, epoch, g) {
      OnePledging(h, epoch, g);
      LawfulPledges(h, epoch, g);
    }
  }

  /** Every operation of the run that is recorded is safe when it is. */
  predicate SafeRun(h: History, epoch: nat, ops: seq<Operation>)
    decreases |ops|
  {
    ops == [] ||
    var before := ops[..|ops| - 1];
    var e, op := Run(h, epoch, before), ops[|ops| - 1];
    SafeRun(h, epoch, before) && (Effective(e, epoch, op) ==> Safe(e, op))
  }

  /** The history is lawful at every point of the run. */
  predicate LawfulRun(h: History, epoch: nat, ops: seq<Operation>)
    decreases |ops|
  {
    Lawful(Run(h, epoch, ops), epoch, |h|) && (ops == [] || LawfulRun(h, epoch, ops[..|ops| - 1]))
  }

  /** A run from genesis stays within the automaton at every point if and only if every operation
      that is recorded is safe when it is. */
  lemma {:induction false} RunLawfulIff(h: History, epoch: nat, ops: seq<Operation>)
    requires GenesisRecords(h, epoch)
    ensures LawfulRun(h, epoch, ops) <==> SafeRun(h, epoch, ops)
    decreases |ops|
  {
    if ops != [] {
      var before := ops[..|ops| - 1];
      RunLawfulIff(h, epoch, before);
      var e, op := Run(h, epoch, before), ops[|ops| - 1];
      if Lawful(e, epoch, |h|) && Effective(e, epoch, op) {
        ApplyLawfulIff(e, epoch, |h|, op);
      }
    }
  }

  /** So in every safe run: node histories are legal, at most one node is pledging and it is the
      latest record, and at least seven nodes stay accepted. */
  lemma {:induction false} ElectionSafety(h: History, epoch: nat, ops: seq<Operation>, id: Id)
    requires GenesisRecords(h, epoch) && SafeRun(h, epoch, ops)
    ensures var e := Run(h, epoch, ops);
            LegalStates(StatesOf(e, id)) && OrderlyPledges(e) && |AcceptedAt(e)| >= MINIMUM_NODES
  {
    RunLawfulIff(h, epoch, ops);
    var e := Run(h, epoch, ops);
    NodeHistories(e, epoch, |h|, id);
    PledgesLawful(e, epoch, |h|);
    EnoughAccepted(e, epoch, |h|);
  }
}
