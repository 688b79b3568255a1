/** Finalising with all its tables: outputs and ghost keys, the queue of node states, and the
    custodians by time.  Everything is written or nothing. */
module OperationFinality {
  import opened Ledger
  import opened LedgerSafety
  import opened LedgerRuns
  import opened LedgerFinality
  import E = Election

  const CUSTODIAN_NODES := 50

  /** What is read from the extra of a transaction: the node it is about, or the new custodian, with
      the number of its nodes, if that parses. */
  datatype Extra = Extra(signer: nat, parses: bool, custodian: nat, nodes: nat)

  datatype Tables = Tables(store: Store, queue: E.History, custodians: map<nat, nat>)

  predicate Operates(t: OutputType) {
    t in {NodePledge, NodeCancel, NodeAccept, NodeRemove, CustodianUpdateNodes}
  }

  predicate FromGenesis(tx: Transaction) {
    exists i <- tx.inputs :: i.Genesis?
  }

  /** The check that goes with an output, on the tables it is written to. */
  predicate OperationPasses(t: Tables, typ: OutputType, genesis: bool, h: Hash, x: Extra, ts: nat) {
    match typ
    case NodePledge => E.PledgeStore(t.queue, ts, x.signer, h)
    case NodeCancel => E.ResolveStore(t.queue, ts, x.signer)
    case NodeAccept => genesis || E.ResolveStore(t.queue, ts, x.signer)
    case NodeRemove => E.RemoveStore(t.queue, ts, x.signer)
    case CustodianUpdateNodes =>
      x.parses && x.nodes <= CUSTODIAN_NODES && (ts in t.custodians ==> t.custodians[ts] == x.custodian)
    case _ => true
  }

  function WriteOperation(t: Tables, typ: OutputType, genesis: bool, h: Hash, x: Extra, ts: nat): Result<Tables> {
    if !OperationPasses(t, typ, genesis, h, x, ts) then Err
    else
      match typ
      case NodePledge => Ok(t.(queue := E.Insert(t.queue, E.Record(x.signer, h, ts, E.Pledging))))
      case NodeCancel => Ok(t.(queue := E.Insert(t.queue, E.Record(x.signer, h, ts, E.Cancelled))))
      case NodeAccept => Ok(t.(queue := E.Insert(t.queue, E.Record(x.signer, h, ts, E.Accepted))))
      case NodeRemove => Ok(t.(queue := E.Insert(t.queue, E.Record(x.signer, h, ts, E.Removed))))
      case CustodianUpdateNodes => Ok(t.(custodians := t.custodians[ts := x.custodian]))
      case _ => Ok(t)
  }

  /** One output: its ghost keys and itself, then its operation. */
  function WriteOutput(t: Tables, tx: Transaction, h: Hash, x: Extra, ts: nat, i: nat): Result<Tables>
    requires i < |tx.outputs|
  {
    var s :- WriteUtxo(t.store, tx, h, i);
    WriteOperation(t.(store := s), tx.outputs[i].typ, FromGenesis(tx), h, x, ts)
  }

  function WriteOutputs(t: Tables, tx: Transaction, h: Hash, x: Extra, ts: nat, n: nat): Result<Tables>
    requires n <= |tx.outputs|
  {
    if n == 0 then Ok(t)
    else
      var p :- WriteOutputs(t, tx, h, x, ts, n - 1);
      WriteOutput(p, tx, h, x, ts, n - 1)
  }

  function WriteSnapshotAll(t: Tables, tx: Transaction, h: Hash, snapshot: Hash, x: Extra, ts: nat): Result<Tables> {
    if h !in t.store.txs then Err
    else if h in t.store.finals then Ok(t)
    else
      var s := t.store.(finals := t.store.finals[h := snapshot]);
      WriteOutputs(t.(store := s), tx, h, x, ts, |tx.outputs|)
  }

  // ----- only the first output of a validated transaction is an operation

  ghost predicate OneOperation(tx: Transaction) {
    && tx.outputs != [] && (forall i | 0 < i < |tx.outputs| :: !Operates(tx.outputs[i].typ))
    && (tx.outputs[0].typ.NodeAccept? ==> !FromGenesis(tx))
  }

  lemma {:induction false} ValidateShape(s: Store, tx: Transaction, h: Hash, fork: bool, checks: Checks)
    requires Validate(s, tx, h, fork, checks).0
    ensures OneOperation(tx)
  {
    TypeMeaning(tx);
    if |tx.outputs| > 1 {
      assert forall i | 0 < i < |tx.outputs| :: tx.outputs[i] in tx.outputs;
    } else if TypeOf(tx) in {TxMint, TxDeposit} {
      assert tx.outputs[0] in tx.outputs;
    }
  }

  lemma {:induction false} RunShaped(book: Book, ops: seq<Op>)
    ensures forall h <- Execs(book, ops).approved :: OneOperation(book(h))
    decreases |ops|
  {
    if ops != [] {
      var a, op := Execs(book, ops[..|ops| - 1]), ops[|ops| - 1];
      RunShaped(book, ops[..|ops| - 1]);
      forall h <- Exec(book, a, op).approved
        ensures OneOperation(book(h))
      {
        if h !in a.approved {
          ValidateShape(a.store, book(h), h, op.fork, op.checks);
        }
      }
    }
  }

  /** Writing in order is writing the outputs, and the one operation. */
  lemma {:induction false} WriteOutputsSplit(t: Tables, tx: Transaction, h: Hash, x: Extra, ts: nat, n: nat)
    requires n <= |tx.outputs| && OneOperation(tx)
    ensures var u := WriteUtxos(t.store, tx, h, n);
            var op := WriteOperation(t, tx.outputs[0].typ, FromGenesis(tx), h, x, ts);
            WriteOutputs(t, tx, h, x, ts, n) ==
            if u.Err? || (n > 0 && op.Err?) then Err
            else if n == 0 then Ok(t) else Ok(op.value.(store := u.value))
  {
    if n > 0 {
      WriteOutputsSplit(t, tx, h, x, ts, n - 1);
    }
  }

  /** In every run, for every state of the other tables: a snapshot of a persisted transaction that
      is not final yet is written exactly if no other transaction holds a key that validation had
      skipped, and the operation of its first output, if it is one, passes the check of its table.
      Then the outputs are written and the operation is recorded. */
  lemma {:induction false} FinalisableAllIff(book: Book, ops: seq<Op>, h: Hash, snapshot: Hash, t: Tables, x: Extra,
                                             ts: nat)
    requires t.store == Execs(book, ops).store && h in t.store.txs && h !in t.store.finals
    ensures book(h).outputs != []
    ensures var tx := book(h);
            var r, typ := WriteSnapshotAll(t, tx, h, snapshot, x, ts), tx.outputs[0].typ;
            && (r.Ok? <==> (forall o <- tx.outputs | Skipped(o) :: AllFree(t.store.ghosts, o.keys, h)) &&
                           OperationPasses(t, typ, false, h, x, ts))
            && (r.Ok? ==> WriteSnapshot(t.store, tx, h, snapshot) == Ok(r.value.store) &&
                          WriteOperation(t, typ, false, h, x, ts) == Ok(r.value.(store := t.store)))
  {
    var tx := book(h);
    RunKept(book, ops);
    RunShaped(book, ops);
    assert OneOperation(tx);
    FinalisableIff(book, ops, h, snapshot);
    var s := t.store.(finals := t.store.finals[h := snapshot]);
    WriteOutputsSplit(t.(store := s), tx, h, x, ts, |tx.outputs|);
    OperationAlone(t, t.(store := s), tx.outputs[0].typ, FromGenesis(tx), h, x, ts);
  }

  /** The operation looks at and changes its own table only, and knows genesis only on accepting. */
  lemma {:induction false} OperationAlone(t: Tables, t': Tables, typ: OutputType, genesis: bool, h: Hash, x: Extra,
                                          ts: nat)
    requires t' == t.(store := t'.store) && (typ.NodeAccept? ==> !genesis)
    ensures var r, r' := WriteOperation(t, typ, false, h, x, ts), WriteOperation(t', typ, genesis, h, x, ts);
            && (r.Ok? <==> OperationPasses(t, typ, false, h, x, ts)) && (r'.Ok? <==> r.Ok?)
            && (r.Ok? ==> r.value.store == t.store && r'.value == r.value.(store := t'.store))
  {
  }

  // ----- what the tables come to

  /** The output type with which a node asks for each state. */
  predicate Asks(typ: OutputType, kind: E.NodeState) {
    match kind
    case Pledging => typ == NodePledge
    case Cancelled => typ == NodeCancel
    case Accepted => typ == NodeAccept
    case Removed => typ == NodeRemove
  }

  ghost predicate KeysOpen(s: Store, tx: Transaction, h: Hash) {
    forall o <- tx.outputs | Skipped(o) :: AllFree(s.ghosts, o.keys, h)
  }

  lemma {:induction false} ElectedPasses(t: Tables, typ: OutputType, h: Hash, x: Extra, epoch: nat, op: E.Operation)
    requires Asks(typ, op.kind) && E.Passes(t.queue, epoch, op) && op.id == x.signer && op.tx == h
    requires !E.Recorded(t.queue, h)
    ensures OperationPasses(t, typ, false, h, x, op.ts)
    ensures var r := WriteOperation(t, typ, false, h, x, op.ts);
            r.Ok? && r.value.queue == E.Apply(t.queue, epoch, op) && r.value.custodians == t.custodians
  {
    var r := E.Record(op.id, op.tx, op.ts, op.kind);
    AppliedIs(t.queue, epoch, op);
    StorePasses(t, typ, h, x, epoch, op);
    assert WriteOperation(t, typ, false, h, x, op.ts) == Ok(t.(queue := E.Insert(t.queue, r))) by {
      match op.kind {
        case Pledging =>
        case Cancelled =>
        case Accepted =>
        case Removed =>
      }
    }
  }

  lemma {:induction false} AppliedIs(h: E.History, epoch: nat, op: E.Operation)
    requires E.Passes(h, epoch, op) && !E.Recorded(h, op.tx)
    ensures E.Apply(h, epoch, op) == E.Insert(h, E.Record(op.id, op.tx, op.ts, op.kind))
  {
  }

  lemma {:induction false} StorePasses(t: Tables, typ: OutputType, h: Hash, x: Extra, epoch: nat, op: E.Operation)
    requires Asks(typ, op.kind) && E.Passes(t.queue, epoch, op) && op.id == x.signer && op.tx == h
    ensures OperationPasses(t, typ, false, h, x, op.ts)
  {
    match op.kind {
      case Pledging =>
      case Cancelled =>
      case Accepted =>
      case Removed =>
    }
  }

  /** A node operation the election lets through, and that the queue does not hold yet, is finalised
      and moves the queue just as the election does. */
  lemma {:induction false} ElectedIsWritten(book: Book, ops: seq<Op>, h: Hash, snapshot: Hash, t: Tables, x: Extra,
                                            epoch: nat, op: E.Operation)
    requires t.store == Execs(book, ops).store && h in t.store.txs && h !in t.store.finals
    requires book(h).outputs != [] && Asks(book(h).outputs[0].typ, op.kind) && KeysOpen(t.store, book(h), h)
    requires E.Passes(t.queue, epoch, op) && !E.Recorded(t.queue, h) && op.id == x.signer && op.tx == h
    ensures var r := WriteSnapshotAll(t, book(h), h, snapshot, x, op.ts);
            && r.Ok? && WriteSnapshot(t.store, book(h), h, snapshot) == Ok(r.value.store)
            && r.value.queue == E.Apply(t.queue, epoch, op) && r.value.custodians == t.custodians
  {
    var tx := book(h);
    ElectedPasses(t, tx.outputs[0].typ, h, x, epoch, op);
    FinalisableAllIff(book, ops, h, snapshot, t, x, op.ts);
  }

  /** A custodian update is finalised exactly if its extra names at most fifty nodes and no other
      custodian is recorded for that time; then it is the custodian of that time. */
  lemma {:induction false} CustodianIff(book: Book, ops: seq<Op>, h: Hash, snapshot: Hash, t: Tables, x: Extra,
                                        ts: nat)
    requires t.store == Execs(book, ops).store && h in t.store.txs && h !in t.store.finals
    requires book(h).outputs != [] && book(h).outputs[0].typ == CustodianUpdateNodes && KeysOpen(t.store, book(h), h)
    ensures var r := WriteSnapshotAll(t, book(h), h, snapshot, x, ts);
            && (r.Ok? <==> x.parses && x.nodes <= 50 && (ts !in t.custodians || t.custodians[ts] == x.custodian))
            && (r.Ok? ==> r.value.queue == t.queue && r.value.custodians == t.custodians[ts := x.custodian])
  {
    FinalisableAllIff(book, ops, h, snapshot, t, x, ts);
  }

  /** Every other transaction is finalised whatever the two tables hold, and leaves them alone. */
  lemma {:induction false} OthersLeaveTables(book: Book, ops: seq<Op>, h: Hash, snapshot: Hash, t: Tables, x: Extra,
                                             ts: nat)
    requires t.store == Execs(book, ops).store && h in t.store.txs && h !in t.store.finals
    requires book(h).outputs != [] && KeysOpen(t.store, book(h), h)
    requires book(h).outputs[0].typ !in {NodePledge, NodeCancel, NodeAccept, NodeRemove, CustodianUpdateNodes}
    ensures var r := WriteSnapshotAll(t, book(h), h, snapshot, x, ts);
            r.Ok? && r.value.queue == t.queue && r.value.custodians == t.custodians
  {
    FinalisableAllIff(book, ops, h, snapshot, t, x, ts);
  }
}
