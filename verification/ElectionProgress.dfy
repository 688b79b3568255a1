/** Exactly which operations are recorded on time, in hours and days, and when the records of a run
    were made. */
module ElectionProgress {
  import opened Election
  import opened LateElection
  import NodeStore

  const NANOS_PER_HOUR := 3600000000000

  /** Between one and seven in the afternoon, counted from the epoch. */
  predicate DueHour(epoch: nat, ts: nat) {
    ts >= epoch && 13 <= (ts - epoch) / NANOS_PER_HOUR % 24 <= 19
  }

  /** Twelve hours to seven days after the pledge. */
  predicate InSpan(pledge: nat, ts: nat) {
    pledge + 12 * NANOS_PER_HOUR <= ts <= pledge + 168 * NANOS_PER_HOUR
  }

  /** The node whose acceptance is the earliest of those that are still accepted. */
  ghost predicate EarliestAccepted(h: History, id: Id) {
    exists i :: 0 <= i < |h| && Standing(h, i) && h[i].id == id && forall j | 0 <= j < i :: !Standing(h, j)
  }

  ghost predicate Standing(h: History, i: nat) {
    i < |h| && h[i].state == Accepted && forall j | i < j < |h| :: h[j].id != h[i].id
  }

  /** What the rules ask of an operation, given the latest record. */
  ghost predicate Due(h: History, epoch: nat, op: Operation)
    requires h != []
  {
    var last := h[|h| - 1];
    match op.kind
    case Pledging =>
      !last.state.Pledging? && last.ts + 12 * NANOS_PER_HOUR <= op.ts && forall r <- h :: r.id != op.id
    case Accepted => last.state.Pledging? && last.id == op.id && InSpan(last.ts, op.ts) && DueHour(epoch, op.ts)
    case Cancelled => last.state.Pledging? && last.id == op.id && InSpan(last.ts, op.ts) && DueHour(epoch, op.ts)
    case Removed => RemovalDue(h, epoch, op.ts, op.id)
  }

  /** There are more than seven accepted nodes, and it is the one that has been for longest. */
  ghost predicate RemovalDue(h: History, epoch: nat, ts: nat, id: Id)
    requires h != []
  {
    && !h[|h| - 1].state.Pledging? && h[|h| - 1].ts + 12 * NANOS_PER_HOUR <= ts && DueHour(epoch, ts)
    && EarliestAccepted(h, id) && |set i | 0 <= i < |h| && Standing(h, i)| > 7
  }

  // ----- each kind

  lemma {:induction false} StandingIs(h: History)
    ensures (set i | 0 <= i < |h| && Standing(h, i)) == AcceptedAt(h)
    ensures forall id :: EarliestAccepted(h, id) <==> exists i <- AcceptedAt(h) :: Earliest(h, i) && h[i].id == id
  {
    forall i: nat | i < |h|
      ensures Standing(h, i) <==> i in AcceptedAt(h)
    {
    }
    forall id
      ensures EarliestAccepted(h, id) <==> exists i <- AcceptedAt(h) :: Earliest(h, i) && h[i].id == id
    {
      if EarliestAccepted(h, id) {
        var i :| 0 <= i < |h| && Standing(h, i) && h[i].id == id && forall j | 0 <= j < i :: !Standing(h, j);
        assert i in AcceptedAt(h) && forall j <- AcceptedAt(h) :: Standing(h, j);
        assert Earliest(h, i);
      }
      if exists i <- AcceptedAt(h) :: Earliest(h, i) && h[i].id == id {
        var i :| i in AcceptedAt(h) && Earliest(h, i) && h[i].id == id;
        assert Standing(h, i) && forall j | 0 <= j < i :: Standing(h, j) ==> j in AcceptedAt(h);
      }
    }
  }

  lemma {:induction false} AgedIff(h: History, epoch: nat, g: nat, ts: nat)
    requires Lawful(h, epoch, g)
    ensures h != [] && (Aged(h, ts) <==> h[|h| - 1].ts + PERIOD <= ts)
  {
    LawfulSize(h, epoch, g);
    LawfulOrder(h, epoch, g);
    LastIsCurrent(h);
  }

  lemma {:induction false} SettledIff(h: History, epoch: nat, g: nat)
    requires Lawful(h, epoch, g)
    ensures h != [] && (Settled(h) <==> !h[|h| - 1].state.Pledging?)
  {
    LawfulSize(h, epoch, g);
    OnePledging(h, epoch, g);
    LastIsCurrent(h);
  }

  lemma {:induction false} PledgeIff(h: History, epoch: nat, g: nat, op: Operation)
    requires Lawful(h, epoch, g) && Timely(h, op.ts) && !Recorded(h, op.tx) && op.kind.Pledging?
    ensures h != [] && (Passes(h, epoch, op) <==> Due(h, epoch, op))
  {
    AgedIff(h, epoch, g, op.ts);
    SettledIff(h, epoch, g);
    BeforeAll(h, op.ts + PERIOD);
    BeforeAll(h, op.ts + PERIOD + 1);
    GenesisTimes(h, epoch, g);
    LawfulOrder(h, epoch, g);
    LawfulSize(h, epoch, g);
    assert epoch == h[0].ts <= h[|h| - 1].ts;
    assert forall i | 0 <= i < |h| :: h[i] in h && h[i].tx != op.tx;
  }

  /** Of the other kinds nothing passes unless the guard sees the latest record. */
  lemma {:induction false} GuardSeesAll(h: History, epoch: nat, g: nat, op: Operation)
    requires Lawful(h, epoch, g) && Timely(h, op.ts) && !op.kind.Pledging? && Passes(h, epoch, op)
    ensures Before(h, op.ts) == h
  {
    assert Before(h, op.ts) != [];
    if Before(h, op.ts) != h {
      MissedRefused(h, epoch, g, op);
    }
  }

  lemma {:induction false} ResolutionIff(h: History, epoch: nat, g: nat, op: Operation)
    requires Lawful(h, epoch, g) && Timely(h, op.ts) && (op.kind.Accepted? || op.kind.Cancelled?)
    ensures h != [] && (Passes(h, epoch, op) <==> Due(h, epoch, op))
  {
    LawfulSize(h, epoch, g);
    BeforeAll(h, op.ts + PERIOD + 1);
    if Passes(h, epoch, op) {
      GuardSeesAll(h, epoch, g, op);
    }
    if Due(h, epoch, op) {
      SeenBefore(h, epoch, g, op.ts);
    }
  }

  lemma {:induction false} SeenBefore(h: History, epoch: nat, g: nat, ts: nat)
    requires Lawful(h, epoch, g) && h != [] && h[|h| - 1].ts < ts
    ensures Before(h, ts) == h
  {
    LawfulOrder(h, epoch, g);
    BeforeAll(h, ts);
  }

  lemma {:induction false} RemoveGuardIff(h: History, epoch: nat, g: nat, ts: nat, id: Id)
    requires Lawful(h, epoch, g) && h != [] && Before(h, ts) == h
    ensures RemoveGuard(h, epoch, ts, id) <==> RemovalDue(h, epoch, ts, id)
  {
    AgedIff(h, epoch, g, ts);
    SettledIff(h, epoch, g);
    StandingIs(h);
  }

  lemma {:induction false} RemovalIff(h: History, epoch: nat, g: nat, op: Operation)
    requires Lawful(h, epoch, g) && Timely(h, op.ts) && op.kind.Removed?
    ensures h != [] && (Passes(h, epoch, op) <==> Due(h, epoch, op))
  {
    LawfulSize(h, epoch, g);
    if h[|h| - 1].ts < op.ts {
      SeenBefore(h, epoch, g, op.ts);
      RemoveGuardIff(h, epoch, g, op.ts, op.id);
      RemoveStoreFollows(h, epoch, op.ts, op.id);
    } else {
      LateGuardFails(h, epoch, g, op);
    }
  }

  lemma {:induction false} LateGuardFails(h: History, epoch: nat, g: nat, op: Operation)
    requires Lawful(h, epoch, g) && Timely(h, op.ts) && !op.kind.Pledging? && h != [] && h[|h| - 1].ts >= op.ts
    ensures !Passes(h, epoch, op)
  {
    if Passes(h, epoch, op) {
      GuardSeesAll(h, epoch, g, op);
      BeforeMeaning(h, epoch, g, op.ts);
    }
  }

  lemma {:induction false} RemoveStoreFollows(h: History, epoch: nat, ts: nat, id: Id)
    requires Before(h, ts) == h && Timely(h, ts)
    ensures RemoveGuard(h, epoch, ts, id) ==> RemoveStore(h, ts, id)
  {
    BeforeAll(h, ts + PERIOD + 1);
  }

  lemma {:induction false} PassesIff(h: History, epoch: nat, g: nat, op: Operation)
    requires Lawful(h, epoch, g) && Timely(h, op.ts) && !Recorded(h, op.tx)
    ensures h != [] && (Passes(h, epoch, op) <==> Due(h, epoch, op))
  {
    match op.kind
    case Pledging => PledgeIff(h, epoch, g, op);
    case Removed => RemovalIff(h, epoch, g, op);
    case _ => ResolutionIff(h, epoch, g, op);
  }

  /** On every lawful history, an operation that is on time and whose transaction is new is recorded
      exactly if it is due, at the end. */
  lemma {:induction false} ApplyIff(h: History, epoch: nat, g: nat, op: Operation)
    requires Lawful(h, epoch, g) && Timely(h, op.ts)
    ensures h != [] && Apply(h, epoch, op) ==
            if !Recorded(h, op.tx) && Due(h, epoch, op) then h + [Record(op.id, op.tx, op.ts, op.kind)] else h
  {
    LawfulSize(h, epoch, g);
    if !Recorded(h, op.tx) {
      PassesIff(h, epoch, g, op);
      if Due(h, epoch, op) {
        DueIsLater(h, epoch, op);
        AppendLast(h, Record(op.id, op.tx, op.ts, op.kind));
      }
    }
  }

  lemma {:induction false} DueIsLater(h: History, epoch: nat, op: Operation)
    requires h != [] && Due(h, epoch, op)
    ensures h[|h| - 1].ts + PERIOD <= op.ts
  {
  }

  // ----- the times of all records of a run

  /** A record that is not of genesis was made when it was due: an acceptance or cancellation within
      the span of its node's pledge. */
  ghost predicate MadeInTime(h: History, epoch: nat, r: Record) {
    match r.state
    case Pledging => r.ts >= epoch + 12 * NANOS_PER_HOUR
    case Removed => DueHour(epoch, r.ts)
    case _ =>
      DueHour(epoch, r.ts) && exists q <- h :: q.state.Pledging? && q.id == r.id && InSpan(q.ts, r.ts)
  }

  lemma {:induction false} InsertMembers(h: History, r: Record)
    requires forall q <- h :: q.ts != r.ts
    ensures forall q :: q in Insert(h, r) <==> q == r || q in h
    decreases |h|
  {
    if h != [] {
      var init, last := h[..|h| - 1], h[|h| - 1];
      assert h == init + [last];
      InsertMembers(init, r);
    }
  }

  lemma {:induction false} DueInTime(h: History, epoch: nat, g: nat, op: Operation)
    requires Lawful(h, epoch, g) && h != [] && Due(h, epoch, op)
    ensures MadeInTime(h + [RecordOf(op)], epoch, RecordOf(op))
  {
    LawfulSize(h, epoch, g);
    LawfulOrder(h, epoch, g);
    GenesisTimes(h, epoch, g);
    assert epoch == h[0].ts <= h[|h| - 1].ts;
    assert h[|h| - 1] in h + [RecordOf(op)];
  }

  /** Nothing is recorded at the time of a safe operation yet, and it is made in time. */
  lemma {:induction false} EffectiveInTime(h: History, epoch: nat, g: nat, op: Operation)
    requires Lawful(h, epoch, g) && Effective(h, epoch, op) && Safe(h, op)
    ensures (forall q <- h :: q.ts != op.ts) && MadeInTime(h + [RecordOf(op)], epoch, RecordOf(op))
  {
    LawfulSize(h, epoch, g);
    if Timely(h, op.ts) {
      PassesIff(h, epoch, g, op);
      DueInTime(h, epoch, g, op);
      DueIsLater(h, epoch, op);
      LawfulOrder(h, epoch, g);
    }
  }

  /** In every safe run from genesis, every record after genesis was made in time. */
  lemma {:induction false} RunInTime(h: History, epoch: nat, ops: seq<Operation>)
    requires GenesisRecords(h, epoch) && SafeRun(h, epoch, ops)
    ensures var e := Run(h, epoch, ops);
            forall r <- e | r !in h :: MadeInTime(e, epoch, r)
    decreases |ops|
  {
    if ops != [] {
      var before := ops[..|ops| - 1];
      var e, op := Run(h, epoch, before), ops[|ops| - 1];
      RunInTime(h, epoch, before);
      RunLawfulIff(h, epoch, before);
      if Effective(e, epoch, op) {
        EffectiveInTime(e, epoch, |h|, op);
        InsertMembers(e, RecordOf(op));
        var e' := Insert(e, RecordOf(op));
        forall r <- e' | r !in h
          ensures MadeInTime(e', epoch, r)
        {
          if r in e {
            StaysInTime(e, e', epoch, r);
          } else {
            StaysInTime(e + [RecordOf(op)], e', epoch, r);
          }
        }
      }
    }
  }

  lemma {:induction false} StaysInTime(h: History, h': History, epoch: nat, r: Record)
    requires MadeInTime(h, epoch, r) && forall q <- h :: q in h'
    ensures MadeInTime(h', epoch, r)
  {
  }

  // ----- the checks of the store alone

  /** The store looks twelve hours ahead. */
  predicate Visible(h: History, ts: nat, i: nat) {
    i < |h| && h[i].ts <= ts + 12 * NANOS_PER_HOUR
  }

  /** The last visible record of its node. */
  ghost predicate Latest(h: History, ts: nat, i: nat) {
    Visible(h, ts, i) && forall j | i < j < |h| && Visible(h, ts, j) :: h[j].id != h[i].id
  }

  /** The last visible record of all. */
  ghost predicate Newest(h: History, ts: nat, i: nat) {
    Visible(h, ts, i) && forall j | i < j < |h| :: !Visible(h, ts, j)
  }

  lemma {:induction false} VisibleAre(h: History, ts: nat)
    requires NodeStore.Sorted(h)
    ensures var p := Before(h, ts + PERIOD + 1);
            && |p| <= |h| && p == h[..|p|] && (forall i: nat :: Visible(h, ts, i) <==> i < |p|)
            && (forall i: nat :: Latest(h, ts, i) <==> i < |p| && Current(p, i))
            && (forall i: nat :: Newest(h, ts, i) <==> p != [] && i == |p| - 1)
  {
    forall i, j | 0 <= i <= j < |h|
      ensures h[i].ts <= h[j].ts
    {
      if i < j {
        assert Precedes(h[i], h[j]);
      }
    }
    BeforeSorted(h, ts + PERIOD + 1);
    var p := Before(h, ts + PERIOD + 1);
    forall i: nat
      ensures Newest(h, ts, i) <==> p != [] && i == |p| - 1
    {
      assert i < |p| - 1 ==> Visible(h, ts, i + 1);
    }
  }

  /** A pledge is written exactly if no node is pledging and node and transaction are not among the
      latest records. */
  lemma {:induction false} PledgeStoreIff(h: History, ts: nat, id: Id, tx: Hash)
    requires NodeStore.Sorted(h)
    ensures PledgeStore(h, ts, id, tx) <==>
            forall i: nat | Latest(h, ts, i) :: h[i].state != Pledging && h[i].id != id && h[i].tx != tx
  {
    VisibleAre(h, ts);
    var p := Before(h, ts + PERIOD + 1);
    if forall i: nat | Latest(h, ts, i) :: h[i].state != Pledging && h[i].id != id && h[i].tx != tx {
      forall i: nat | i < |p| && Current(p, i)
        ensures p[i].state != Pledging && p[i].id != id && p[i].tx != tx
      {
        assert Latest(h, ts, i);
      }
    }
  }

  /** An acceptance or cancellation exactly if the newest record is the pledge of that node. */
  lemma {:induction false} ResolveStoreIff(h: History, ts: nat, id: Id)
    requires NodeStore.Sorted(h)
    ensures ResolveStore(h, ts, id) <==>
            exists i: nat :: Newest(h, ts, i) && h[i].state == Pledging && h[i].id == id
  {
    VisibleAre(h, ts);
    var p := Before(h, ts + PERIOD + 1);
    if p != [] {
      assert Newest(h, ts, |p| - 1);
    }
  }

  /** A removal exactly if the newest record is not a pledge and the latest of that node is an
      acceptance. */
  lemma {:induction false} RemoveStoreIff(h: History, ts: nat, id: Id)
    requires NodeStore.Sorted(h)
    ensures RemoveStore(h, ts, id) <==>
            && (exists i: nat :: Newest(h, ts, i) && h[i].state != Pledging)
            && (exists i: nat :: Latest(h, ts, i) && h[i].state == Accepted && h[i].id == id)
  {
    VisibleAre(h, ts);
    var p := Before(h, ts + PERIOD + 1);
    if p != [] {
      assert Newest(h, ts, |p| - 1);
    }
    if RemoveStore(h, ts, id) {
      var i :| i in AcceptedAt(p) && p[i].id == id;
      assert Latest(h, ts, i) && h[i] == p[i];
    }
    if i: nat :| Latest(h, ts, i) && h[i].state == Accepted && h[i].id == id {
      assert i in AcceptedAt(p);
    }
  }
}
