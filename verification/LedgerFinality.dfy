/** Which persisted transactions a snapshot can finalise. */
module LedgerFinality {
  import opened Ledger
  import opened LedgerSafety
  import opened LedgerRuns

  /** No other transaction holds the key. */
  predicate Free(ghosts: map<Key, Hash>, k: Key, h: Hash) {
    k in ghosts ==> ghosts[k] == h
  }

  predicate AllFree(ghosts: map<Key, Hash>, keys: seq<Key>, h: Hash) {
    forall k <- keys :: Free(ghosts, k, h)
  }

  lemma {:induction false} LockGhostsIff(ghosts: map<Key, Hash>, keys: seq<Key>, h: Hash)
    ensures LockGhosts(ghosts, keys, h).Ok? <==> AllFree(ghosts, keys, h)
    ensures LockGhosts(ghosts, keys, h).Ok? ==>
              forall k :: Free(LockGhosts(ghosts, keys, h).value, k, h) <==> Free(ghosts, k, h)
    decreases |keys|
  {
    if keys != [] {
      var pre, last := keys[..|keys| - 1], keys[|keys| - 1];
      assert keys == pre + [last] && last in keys && forall k <- pre :: k in keys;
      LockGhostsIff(ghosts, pre, h);
    }
  }

  predicate Writable(s: Store, o: Output, h: Hash) {
    && o.typ !in {DomainRemove, Other}
    && (o.typ in {WithdrawalSubmit, CustodianSlashNodes} || AllFree(s.ghosts, o.keys, h))
  }

  lemma {:induction false} WriteUtxosIff(s: Store, tx: Transaction, h: Hash, n: nat)
    requires n <= |tx.outputs|
    ensures WriteUtxos(s, tx, h, n).Ok? <==> forall i | 0 <= i < n :: Writable(s, tx.outputs[i], h)
    ensures WriteUtxos(s, tx, h, n).Ok? ==>
              forall k :: Free(WriteUtxos(s, tx, h, n).value.ghosts, k, h) <==> Free(s.ghosts, k, h)
  {
    if n > 0 {
      WriteUtxosIff(s, tx, h, n - 1);
      if WriteUtxos(s, tx, h, n - 1).Ok? {
        var p, o := WriteUtxos(s, tx, h, n - 1).value, tx.outputs[n - 1];
        LockGhostsIff(p.ghosts, o.keys, h);
        assert AllFree(p.ghosts, o.keys, h) <==> AllFree(s.ghosts, o.keys, h);
      }
    }
  }

  /** A genesis transaction is loaded exactly if genesis is its only input and its outputs can be
      written, or it was before. */
  lemma {:induction false} GenesisIff(s: Store, tx: Transaction, h: Hash, snapshot: Hash)
    ensures var r := LoadGenesis(s, tx, h, snapshot);
            && (r.Ok? <==> tx.inputs == [Genesis] && (h in s.finals || forall o <- tx.outputs :: Writable(s, o, h)))
            && (r.Ok? ==> h in r.value.txs && h in r.value.finals)
  {
    if tx.inputs == [Genesis] && h !in s.finals {
      var s' := s.(txs := s.txs + {h}, finals := s.finals[h := snapshot]);
      WriteUtxosIff(s', tx, h, |tx.outputs|);
      forall o <- tx.outputs
        ensures Writable(s', o, h) <==> Writable(s, o, h)
      {
      }
      if WriteUtxos(s', tx, h, |tx.outputs|).Ok? {
        WriteUtxosEffect(s', tx, h, |tx.outputs|);
      }
    }
  }

  // ----- what validation leaves locked

  /** The keys validation locks are those of the outputs without withdrawal data. */
  lemma {:induction false} TallyKeys(outs: seq<Output>, o: Output, k: Key)
    requires TallyOutputs(outs).Ok? && o in outs && !o.withdrawal && k in o.keys
    ensures k in TallyOutputs(outs).value.keys
    decreases |outs|
  {
    var pre, last := outs[..|outs| - 1], outs[|outs| - 1];
    assert outs == pre + [last];
    if o in pre {
      TallyKeys(pre, o, k);
    }
  }

  ghost predicate KeysHeld(s: Store, tx: Transaction, h: Hash) {
    forall o <- tx.outputs | !o.withdrawal :: forall k <- o.keys :: k in s.ghosts && s.ghosts[k] == h
  }

  ghost predicate Kept(book: Book, a: State) {
    && (forall h <- a.approved :: KeysHeld(a.store, book(h), h) && forall o <- book(h).outputs :: Known(o.typ))
    && (forall h <- a.store.txs :: h in a.approved || h in a.store.finals)
  }

  /** No step releases a ghost key or hands it on. */
  lemma {:induction false} GhostsGrow(book: Book, a: State, op: Op)
    requires Inv(book, a)
    ensures var s, s' := a.store, Exec(book, a, op).store;
            && (forall k <- s.ghosts :: k in s'.ghosts && s'.ghosts[k] == s.ghosts[k])
            && (forall h <- s'.txs :: h in s.txs || h in Exec(book, a, op).approved || h in s'.finals)
  {
    var s, h := a.store, op.tx;
    if h != 0 {
      match op
      case OpGenesis(_, snapshot) =>
        if h !in s.finals && LoadGenesis(s, book(h), h, snapshot).Ok? {
          FinalizeGhostsGrow(s.(txs := s.txs + {h}), book(h), h, snapshot);
        }
      case OpValidate(_, fork, checks) => ValidateEffect(s, book(h), h, fork, checks);
      case OpLock(_, fork) =>
        if h in a.approved && LockInputs(s, book(h), h, fork).Ok? {
          MintEntriesMatch(book, s, h);
          LockInputsEffect(s, book(h), h, fork);
        }
      case OpWrite(_) =>
      case OpSnapshot(_, snapshot) =>
        if h !in s.finals && WriteSnapshot(s, book(h), h, snapshot).Ok? {
          FinalizeGhostsGrow(s, book(h), h, snapshot);
        }
    }
  }

  lemma {:induction false} FinalizeGhostsGrow(s: Store, tx: Transaction, h: Hash, snapshot: Hash)
    requires h !in s.finals && Finalize(s, tx, h, snapshot).Ok?
    ensures var s' := Finalize(s, tx, h, snapshot).value;
            && s'.txs == s.txs && h in s'.finals
            && forall k <- s.ghosts :: k in s'.ghosts && s'.ghosts[k] == s.ghosts[k]
  {
    WriteUtxosEffect(s.(finals := s.finals[h := snapshot]), tx, h, |tx.outputs|);
    WriteUtxosGhosts(s.(finals := s.finals[h := snapshot]), tx, h, |tx.outputs|);
  }

  lemma {:induction false} ValidateHolds(s: Store, tx: Transaction, h: Hash, fork: bool, checks: Checks)
    requires Validate(s, tx, h, fork, checks).0
    ensures KeysHeld(Validate(s, tx, h, fork, checks).1, tx, h) && forall o <- tx.outputs :: Known(o.typ)
  {
    ValidateSound(s, tx, h, fork, checks);
    var keys := TallyOutputs(tx.outputs).value.keys;
    LockGhostsEffect(s.ghosts, keys, h);
    forall o <- tx.outputs, k <- o.keys | !o.withdrawal
      ensures k in keys
    {
      TallyKeys(tx.outputs, o, k);
    }
  }

  lemma {:induction false} ExecKept(book: Book, a: State, op: Op)
    requires Inv(book, a) && Kept(book, a)
    ensures Kept(book, Exec(book, a, op))
  {
    GhostsGrow(book, a, op);
    ExecGrows(book, a, op);
    var b := Exec(book, a, op);
    forall h <- b.approved
      ensures KeysHeld(b.store, book(h), h) && forall o <- book(h).outputs :: Known(o.typ)
    {
      if h in a.approved {
        assert KeysHeld(a.store, book(h), h);
      } else {
        ValidateHolds(a.store, book(h), h, op.fork, op.checks);
      }
    }
  }

  lemma {:induction false} RunKept(book: Book, ops: seq<Op>)
    ensures Kept(book, Execs(book, ops))
    decreases |ops|
  {
    if ops != [] {
      RunKept(book, ops[..|ops| - 1]);
      RunKeeps(book, ops[..|ops| - 1]);
      ExecKept(book, Execs(book, ops[..|ops| - 1]), ops[|ops| - 1]);
    }
  }

  // ----- which persisted transactions can be finalised

  /** A spendable output with withdrawal data: validation skips its keys, finalising locks them. */
  predicate Skipped(o: Output) {
    Spendable(o.typ) && o.withdrawal
  }

  /** In every run, a snapshot of a persisted transaction is accepted unless another transaction
      took a key of an output whose keys validation had skipped. */
  lemma {:induction false} FinalisableIff(book: Book, ops: seq<Op>, h: Hash, snapshot: Hash)
    requires h in Execs(book, ops).store.txs
    ensures var s := Execs(book, ops).store;
            WriteSnapshot(s, book(h), h, snapshot).Ok? <==>
            h in s.finals || forall o <- book(h).outputs | Skipped(o) :: AllFree(s.ghosts, o.keys, h)
  {
    RunKept(book, ops);
    var s, tx := Execs(book, ops).store, book(h);
    if h !in s.finals {
      WriteUtxosIff(s.(finals := s.finals[h := snapshot]), tx, h, |tx.outputs|);
      assert KeysHeld(s, tx, h);
      forall o <- tx.outputs
        ensures Writable(s, o, h) <==> (Skipped(o) ==> AllFree(s.ghosts, o.keys, h))
      {
      }
    }
  }

  /** Without such outputs a transaction can be finalised whenever it is persisted. */
  lemma {:induction false} PlainIsFinalisable(book: Book, ops: seq<Op>, h: Hash, snapshot: Hash)
    requires h in Execs(book, ops).store.txs && forall o <- book(h).outputs :: !Skipped(o)
    ensures WriteSnapshot(Execs(book, ops).store, book(h), h, snapshot).Ok?
  {
    FinalisableIff(book, ops, h, snapshot);
  }

  /** A deposit to one script output that shares the key 5. */
  function SharedKey(unique: Key, withdrawal: bool): Transaction {
    Transaction(2, XIN, [Deposit(unique, 10)], [Output(Script, 10, [5], withdrawal, false, true)], [])
  }

  function TwoDeposits(h: Hash): Transaction {
    SharedKey(h, h == 2)
  }

  lemma {:induction false} SharedKeyValidates(s: Store, h: Hash)
    requires h == 1 || h == 2
    requires h !in s.deposits && 5 !in s.ghosts
    ensures Validate(s, TwoDeposits(h), h, false, Checks(true, true)) ==
            (true, if h == 2 then s else s.(ghosts := s.ghosts[5 := h]))
  {
    var tx := TwoDeposits(h);
    var o := tx.outputs[0];
    assert tx.outputs[..0] == [];
    assert TallyOutputs(tx.outputs[..0]) == Ok(Tally([], 0));
    assert TallyOutputs(tx.outputs) == TallyOutput(Tally([], 0), o);
    assert ScanInputs(s, tx, h, false, 0) == Ok(Scan({}, [], 0, false));
    assert ScanInputs(s, tx, h, false, 1) == Ok(Scan({}, [], 10, true));
    assert LockGhosts(s.ghosts, [], h) == Ok(s.ghosts);
    if h == 1 {
      assert [] + o.keys == [5] && [5][..0] == [];
      assert LockGhosts(s.ghosts, [5], h) == LockGhost(s.ghosts, 5, h);
    }
  }

  /** The deposit with withdrawal data is validated, locked and persisted; then another takes its key. */
  lemma {:induction false} BlockedExample() returns (ops: seq<Op>)
    ensures var s := Execs(TwoDeposits, ops).store;
            2 in s.txs && forall snapshot :: WriteSnapshot(s, TwoDeposits(2), 2, snapshot).Err?
  {
    var ok := Checks(true, true);
    var o1, o2, o3, o4 := OpValidate(2, false, ok), OpLock(2, false), OpWrite(2), OpValidate(1, false, ok);
    ops := [o1, o2, o3, o4];
    var a0 := State(Empty, {});
    SharedKeyValidates(a0.store, 2);
    var a1 := State(Empty, {2});
    var a2 := State(Empty.(deposits := map[2 := 2]), {2});
    var a3 := State(a2.store.(txs := {2}), {2});
    SharedKeyValidates(a3.store, 1);
    var a4 := State(a3.store.(ghosts := map[5 := 1]), {2, 1});
    assert Exec(TwoDeposits, a0, o1) == a1;
    assert Exec(TwoDeposits, a1, o2) == a2;
    assert Exec(TwoDeposits, a2, o3) == a3;
    assert Exec(TwoDeposits, a3, o4) == a4;
    RunFour(TwoDeposits, o1, o2, o3, o4);
    forall snapshot: Hash
      ensures WriteSnapshot(a4.store, TwoDeposits(2), 2, snapshot).Err?
    {
      var o := TwoDeposits(2).outputs[0];
      assert 5 in o.keys && Skipped(o) && !AllFree(a4.store.ghosts, o.keys, 2);
      FinalisableIff(TwoDeposits, ops, 2, snapshot);
    }
  }

  lemma {:induction false} RunFour(book: Book, o1: Op, o2: Op, o3: Op, o4: Op)
    ensures Execs(book, [o1, o2, o3, o4]) ==
            Exec(book, Exec(book, Exec(book, Exec(book, State(Empty, {}), o1), o2), o3), o4)
  {
    var e1, e2, e3, e4 := [o1], [o1, o2], [o1, o2, o3], [o1, o2, o3, o4];
    assert e1[..0] == [] && e2[..1] == e1 && e3[..2] == e2 && e4[..3] == e3;
    assert Execs(book, e1) == Exec(book, Execs(book, e1[..0]), o1);
    assert Execs(book, e2) == Exec(book, Execs(book, e1), o2);
    assert Execs(book, e3) == Exec(book, Execs(book, e2), o3);
    assert Execs(book, e4) == Exec(book, Execs(book, e3), o4);
  }
}
