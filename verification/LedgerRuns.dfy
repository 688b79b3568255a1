/** Runs of the ledger: any interleaving of validations, locks, writes and snapshots. */
module LedgerRuns {
  import opened Ledger
  import opened LedgerSafety

  /** The store, and the transactions that have passed validation so far. */
  datatype State = State(store: Store, approved: set<Hash>)

  datatype Op =
    | OpGenesis(tx: Hash, snapshot: Hash)
    | OpValidate(tx: Hash, fork: bool, checks: Checks)
    | OpLock(tx: Hash, fork: bool)
    | OpWrite(tx: Hash)
    | OpSnapshot(tx: Hash, snapshot: Hash)

  const Empty := Store(map[], map[], map[], map[], {}, map[])

  function Commit(a: State, r: Result<Store>): State {
    if r.Ok? then a.(store := r.value) else a
  }

  /** The kernel locks and persists only what it has validated. */
  function Exec(book: Book, a: State, op: Op): State {
    var tx := book(op.tx);
    if op.tx == 0 then a else
    match op
    case OpGenesis(h, snapshot) => Commit(a, LoadGenesis(a.store, tx, h, snapshot))
    case OpValidate(h, fork, checks) =>
      var v := Validate(a.store, tx, h, fork, checks);
      State(v.1, if v.0 then a.approved + {h} else a.approved)
    case OpLock(h, fork) => if h in a.approved then Commit(a, LockInputs(a.store, tx, h, fork)) else a
    case OpWrite(h) => if h in a.approved then Commit(a, Write(a.store, tx, h)) else a
    case OpSnapshot(h, snapshot) => Commit(a, WriteSnapshot(a.store, tx, h, snapshot))
  }

  function Execs(book: Book, ops: seq<Op>): State
    decreases |ops|
  {
    if ops == [] then State(Empty, {}) else Exec(book, Execs(book, ops[..|ops| - 1]), ops[|ops| - 1])
  }

  // ----- the invariant

  ghost predicate UtxosInv(book: Book, s: Store) {
    && (forall k <- s.utxos ::
          && k.0 in s.finals && k.1 < |book(k.0).outputs|
          && var o := book(k.0).outputs[k.1];
             Spendable(o.typ) && s.utxos[k] == Utxo(o.typ, o.amount, o.keys, book(k.0).asset, s.utxos[k].lock))
    && (forall h <- s.finals :: forall i: nat | i < |book(h).outputs| && Spendable(book(h).outputs[i].typ) ::
          (h, i) in s.utxos)
  }

  ghost predicate GhostsInv(book: Book, s: Store) {
    forall h <- s.finals :: forall o <- book(h).outputs | Spendable(o.typ) :: forall k <- o.keys ::
      k in s.ghosts && s.ghosts[k] == h
  }

  ghost predicate LocksInv(book: Book, s: Store) {
    && (forall c: Claim :: Owner(s, c) != 0 ==> Claims(book(Owner(s, c)), c))
    && (forall b <- s.mints ::
          s.mints[b].tx != 0 && Mint(s.mints[b].group, b, s.mints[b].amount) in book(s.mints[b].tx).inputs)
    && (forall k <- s.deposits :: s.deposits[k] != 0)
  }

  ghost predicate TxsInv(book: Book, a: State) {
    var s := a.store;
    && s.finals.Keys <= s.txs && 0 !in s.txs
    && (forall h <- s.txs :: HoldsClaims(s, book(h), h))
    && (forall h <- s.txs :: h in a.approved || book(h).inputs == [Genesis])
    && (forall h <- a.approved :: h != 0 && Balanced(s, book(h)))
  }

  ghost predicate Inv(book: Book, a: State) {
    UtxosInv(book, a.store) && GhostsInv(book, a.store) && LocksInv(book, a.store) && TxsInv(book, a)
  }

  // ----- each step keeps it

  /** Balance depends on what outputs exist, not on who locks them. */
  lemma {:induction false} BalancedStable(s: Store, s': Store, tx: Transaction)
    requires Balanced(s, tx)
    requires forall k <- s.utxos :: k in s'.utxos && s'.utxos[k] == s.utxos[k].(lock := s'.utxos[k].lock)
    ensures Balanced(s', tx)
  {
    if TypeOf(tx) !in {TxMint, TxDeposit} {
      InputSumStable(s, s', tx.inputs);
    }
  }

  lemma {:induction false} InputSumStable(s: Store, s': Store, ins: seq<Input>)
    requires forall i <- ins :: i.Spend? && (i.hash, i.index) in s.utxos
    requires forall k <- s.utxos :: k in s'.utxos && s'.utxos[k].amount == s.utxos[k].amount
    ensures InputSum(s, ins) == InputSum(s', ins)
    decreases |ins|
  {
    if ins != [] {
      InputSumStable(s, s', ins[..|ins| - 1]);
    }
  }

  /** Persisting a transaction or locking ghost keys touches neither outputs nor locks. */
  lemma {:induction false} Framed(book: Book, a: State, s': Store)
    requires Inv(book, a)
    requires s' == a.store.(ghosts := s'.ghosts, txs := s'.txs)
    requires forall k <- a.store.ghosts :: k in s'.ghosts && s'.ghosts[k] == a.store.ghosts[k]
    ensures UtxosInv(book, s') && GhostsInv(book, s') && LocksInv(book, s')
    ensures forall c: Claim :: Owner(s', c) == Owner(a.store, c)
    ensures forall h <- a.approved :: Balanced(s', book(h))
  {
    assert forall c: Claim :: Owner(s', c) == Owner(a.store, c);
    forall h <- a.approved
      ensures Balanced(s', book(h))
    {
      BalancedStable(a.store, s', book(h));
    }
  }

  lemma {:induction false} ValidateKeeps(book: Book, a: State, h: Hash, fork: bool, checks: Checks)
    requires Inv(book, a) && h != 0
    ensures Inv(book, Exec(book, a, OpValidate(h, fork, checks)))
  {
    var s, v := a.store, Validate(a.store, book(h), h, fork, checks);
    ValidateEffect(s, book(h), h, fork, checks);
    Framed(book, a, v.1);
    if v.0 {
      ValidateSound(s, book(h), h, fork, checks);
      BalancedStable(s, v.1, book(h));
    }
    forall g <- v.1.txs
      ensures HoldsClaims(v.1, book(g), g)
    {
      assert HoldsClaims(s, book(g), g);
    }
  }

  lemma {:induction false} LockKeeps(book: Book, a: State, h: Hash, fork: bool)
    requires Inv(book, a) && h in a.approved && LockInputs(a.store, book(h), h, fork).Ok?
    ensures Inv(book, Exec(book, a, OpLock(h, fork)))
  {
    var s, s' := a.store, LockInputs(a.store, book(h), h, fork).value;
    assert MintsMatch(s, book(h), h) by {
      MintEntriesMatch(book, s, h);
    }
    LockInputsEffect(s, book(h), h, fork);
    LockedMints(s, book(h), h, fork);
    forall g <- s'.txs
      ensures HoldsClaims(s', book(g), g)
    {
      assert HoldsClaims(s, book(g), g);
      forall c: Claim | Claims(book(g), c)
        ensures Owner(s', c) == g
      {
        assert c in ClaimsOf(book(h)) <==> Claims(book(h), c);
      }
    }
    forall c: Claim | Owner(s', c) != 0
      ensures Claims(book(Owner(s', c)), c)
    {
      assert c in ClaimsOf(book(h)) <==> Claims(book(h), c);
    }
    forall g <- a.approved
      ensures Balanced(s', book(g))
    {
      BalancedStable(s, s', book(g));
    }
  }

  lemma {:induction false} MintEntriesMatch(book: Book, s: Store, h: Hash)
    requires LocksInv(book, s) && Structured(book(h))
    ensures MintsMatch(s, book(h), h)
  {
    forall m <- book(h).inputs | m.Mint? && m.batch in s.mints && s.mints[m.batch].tx == h
      ensures s.mints[m.batch].amount == m.minted
    {
      TypeMeaning(book(h));
      InputsTypeMeaning(book(h).inputs);
    }
  }

  /** The mint and deposit tables after locking. */
  lemma {:induction false} LockedMints(s: Store, tx: Transaction, h: Hash, fork: bool)
    requires Structured(tx) && LockInputs(s, tx, h, fork).Ok?
    ensures var s' := LockInputs(s, tx, h, fork).value;
            && (forall b <- s'.mints :: (b in s.mints && s'.mints[b] == s.mints[b]) ||
                                        (s'.mints[b].tx == h &&
                                         Mint(s'.mints[b].group, b, s'.mints[b].amount) in tx.inputs))
            && (forall k <- s'.deposits :: (k in s.deposits && s'.deposits[k] == s.deposits[k]) || s'.deposits[k] == h)
  {
    if TypeOf(tx).TxMint? {
      assert tx.inputs[0] in tx.inputs;
    } else if TypeOf(tx).TxDeposit? {
    } else {
      LockUtxosTables(s, tx.inputs, h, fork);
    }
  }

  lemma {:induction false} LockUtxosTables(s: Store, ins: seq<Input>, h: Hash, fork: bool)
    requires LockUtxos(s, ins, h, fork).Ok?
    ensures LockUtxos(s, ins, h, fork).value.mints == s.mints && LockUtxos(s, ins, h, fork).value.deposits == s.deposits
    decreases |ins|
  {
    if ins != [] {
      LockUtxosTables(s, ins[..|ins| - 1], h, fork);
    }
  }

  lemma {:induction false} WriteKeeps(book: Book, a: State, h: Hash)
    requires Inv(book, a) && h in a.approved && Write(a.store, book(h), h).Ok?
    ensures Inv(book, Exec(book, a, OpWrite(h)))
  {
    var s, s' := a.store, Write(a.store, book(h), h).value;
    Framed(book, a, s');
    forall c: Claim | Claims(book(h), c)
      ensures Owner(s, c) == h
    {
      assert forall i <- book(h).inputs :: HoldsInput(s, i, h);
    }
    forall g <- s'.txs
      ensures HoldsClaims(s', book(g), g)
    {
      assert HoldsClaims(s, book(g), g);
    }
  }

  /** Finalising adds the spendable outputs, unlocked, and changes no other output. */
  lemma {:induction false} WriteUtxosEffect(s: Store, tx: Transaction, h: Hash, n: nat)
    requires n <= |tx.outputs| && WriteUtxos(s, tx, h, n).Ok?
    ensures var s' := WriteUtxos(s, tx, h, n).value;
            && s' == s.(utxos := s'.utxos, ghosts := s'.ghosts)
            && (forall k :: k in s'.utxos <==> k in s.utxos || (k.0 == h && k.1 < n && Spendable(tx.outputs[k.1].typ)))
            && (forall k <- s'.utxos :: if k.0 == h && k.1 < n && Spendable(tx.outputs[k.1].typ)
                                        then s'.utxos[k] == Utxo(tx.outputs[k.1].typ, tx.outputs[k.1].amount,
                                                                 tx.outputs[k.1].keys, tx.asset, 0)
                                        else s'.utxos[k] == s.utxos[k])
  {
    if n > 0 {
      WriteUtxosEffect(s, tx, h, n - 1);
    }
  }

  /** Finalising locks the ghost keys of the spendable outputs and takes none from another
      transaction. */
  lemma {:induction false} WriteUtxosGhosts(s: Store, tx: Transaction, h: Hash, n: nat)
    requires n <= |tx.outputs| && WriteUtxos(s, tx, h, n).Ok?
    ensures var s' := WriteUtxos(s, tx, h, n).value;
            && (forall k <- s.ghosts :: k in s'.ghosts && s'.ghosts[k] == s.ghosts[k])
            && (forall i | 0 <= i < n && Spendable(tx.outputs[i].typ) :: forall k <- tx.outputs[i].keys ::
                  k in s'.ghosts && s'.ghosts[k] == h)
  {
    if n > 0 {
      WriteUtxosGhosts(s, tx, h, n - 1);
      var p := WriteUtxos(s, tx, h, n - 1).value;
      if Spendable(tx.outputs[n - 1].typ) {
        LockGhostsEffect(p.ghosts, tx.outputs[n - 1].keys, h);
      }
    }
  }

  lemma {:induction false} FinalizeUtxos(book: Book, s: Store, h: Hash, snapshot: Hash)
    requires UtxosInv(book, s) && h !in s.finals && Finalize(s, book(h), h, snapshot).Ok?
    ensures var s' := Finalize(s, book(h), h, snapshot).value;
            && UtxosInv(book, s')
            && (forall k <- s.utxos :: k in s'.utxos && s'.utxos[k] == s.utxos[k])
            && (forall c: Claim :: Owner(s', c) == Owner(s, c))
            && s' == s.(utxos := s'.utxos, ghosts := s'.ghosts, finals := s.finals[h := snapshot])
  {
    var tx := book(h);
    WriteUtxosEffect(s.(finals := s.finals[h := snapshot]), tx, h, |tx.outputs|);
    assert forall k <- s.utxos :: k.0 != h;
  }

  lemma {:induction false} FinalizeGhosts(book: Book, s: Store, h: Hash, snapshot: Hash)
    requires GhostsInv(book, s) && h !in s.finals && Finalize(s, book(h), h, snapshot).Ok?
    ensures GhostsInv(book, Finalize(s, book(h), h, snapshot).value)
  {
    var tx := book(h);
    WriteUtxosEffect(s.(finals := s.finals[h := snapshot]), tx, h, |tx.outputs|);
    WriteUtxosGhosts(s.(finals := s.finals[h := snapshot]), tx, h, |tx.outputs|);
    var s' := Finalize(s, tx, h, snapshot).value;
    forall g <- s'.finals, o <- book(g).outputs, k <- o.keys | Spendable(o.typ)
      ensures k in s'.ghosts && s'.ghosts[k] == g
    {
      if g == h {
        var i :| 0 <= i < |tx.outputs| && tx.outputs[i] == o;
      }
    }
  }

  lemma {:induction false} FinalizeKeeps(book: Book, a: State, h: Hash, snapshot: Hash)
    requires Inv(book, a) && h in a.store.txs && h !in a.store.finals
    requires Finalize(a.store, book(h), h, snapshot).Ok?
    ensures Inv(book, a.(store := Finalize(a.store, book(h), h, snapshot).value))
  {
    var s, s' := a.store, Finalize(a.store, book(h), h, snapshot).value;
    FinalizeUtxos(book, s, h, snapshot);
    FinalizeGhosts(book, s, h, snapshot);
    forall g <- a.approved
      ensures Balanced(s', book(g))
    {
      BalancedStable(s, s', book(g));
    }
  }

  lemma {:induction false} GenesisWritten(book: Book, a: State, h: Hash)
    requires Inv(book, a) && h != 0 && book(h).inputs == [Genesis]
    ensures Inv(book, a.(store := a.store.(txs := a.store.txs + {h})))
  {
    var s' := a.store.(txs := a.store.txs + {h});
    Framed(book, a, s');
    assert forall c: Claim :: !Claims(book(h), c);
    forall g <- s'.txs
      ensures HoldsClaims(s', book(g), g)
    {
      assert HoldsClaims(a.store, book(g), g);
    }
  }

  lemma {:induction false} GenesisKeeps(book: Book, a: State, h: Hash, snapshot: Hash)
    requires Inv(book, a) && h != 0 && LoadGenesis(a.store, book(h), h, snapshot).Ok?
    ensures Inv(book, Exec(book, a, OpGenesis(h, snapshot)))
  {
    var b := a.(store := a.store.(txs := a.store.txs + {h}));
    GenesisWritten(book, a, h);
    if h !in a.store.finals {
      FinalizeKeeps(book, b, h, snapshot);
    }
  }

  lemma {:induction false} ExecKeeps(book: Book, a: State, op: Op)
    requires Inv(book, a)
    ensures Inv(book, Exec(book, a, op))
  {
    var h := op.tx;
    if h != 0 {
      match op
      case OpGenesis(_, snapshot) =>
        if LoadGenesis(a.store, book(h), h, snapshot).Ok? { GenesisKeeps(book, a, h, snapshot); }
      case OpValidate(_, fork, checks) => ValidateKeeps(book, a, h, fork, checks);
      case OpLock(_, fork) =>
        if h in a.approved && LockInputs(a.store, book(h), h, fork).Ok? { LockKeeps(book, a, h, fork); }
      case OpWrite(_) => if h in a.approved && Write(a.store, book(h), h).Ok? { WriteKeeps(book, a, h); }
      case OpSnapshot(_, snapshot) =>
        if h !in a.store.finals && WriteSnapshot(a.store, book(h), h, snapshot).Ok? {
          FinalizeKeeps(book, a, h, snapshot);
        }
    }
  }

  lemma {:induction false} RunKeeps(book: Book, ops: seq<Op>)
    ensures Inv(book, Execs(book, ops))
    decreases |ops|
  {
    if ops == [] {
      assert forall c: Claim :: Owner(Empty, c) == 0;
    } else {
      RunKeeps(book, ops[..|ops| - 1]);
      ExecKeeps(book, Execs(book, ops[..|ops| - 1]), ops[|ops| - 1]);
    }
  }

  // ----- what every run keeps

  /** The output types that lock ghost keys when finalised. */
  ghost predicate Mints(tx: Transaction, k: Key) {
    exists o <- tx.outputs :: Spendable(o.typ) && k in o.keys
  }

  /** Two different persisted transactions never spend the same output, deposit or mint batch,
      and two finalised ones never share a ghost key. */
  lemma {:induction false} NoDoubleSpend(book: Book, ops: seq<Op>, g: Hash, h: Hash)
    requires g != h
    ensures var s := Execs(book, ops).store;
            && (g in s.txs && h in s.txs ==> forall c: Claim :: !(Claims(book(g), c) && Claims(book(h), c)))
            && (g in s.finals && h in s.finals ==>
                  s.finals.Keys <= s.txs && forall k: Key :: !(Mints(book(g), k) && Mints(book(h), k)))
  {
    RunKeeps(book, ops);
    var s := Execs(book, ops).store;
    if g in s.txs && h in s.txs {
      forall c: Claim
        ensures !(Claims(book(g), c) && Claims(book(h), c))
      {
        assert HoldsClaims(s, book(g), g) && HoldsClaims(s, book(h), h);
      }
    }
  }

  /** No step forgets a finalisation or moves it to another snapshot, or removes an output. */
  lemma {:induction false} ExecGrows(book: Book, a: State, op: Op)
    requires Inv(book, a)
    ensures var s, s' := a.store, Exec(book, a, op).store;
            && (forall h <- s.finals :: h in s'.finals && s'.finals[h] == s.finals[h])
            && s.utxos.Keys <= s'.utxos.Keys
  {
    var h := op.tx;
    if h != 0 {
      match op
      case OpGenesis(_, snapshot) =>
        if h !in a.store.finals && LoadGenesis(a.store, book(h), h, snapshot).Ok? {
          GenesisWritten(book, a, h);
          FinalizeUtxos(book, a.store.(txs := a.store.txs + {h}), h, snapshot);
        }
      case OpValidate(_, fork, checks) => ValidateEffect(a.store, book(h), h, fork, checks);
      case OpLock(_, fork) =>
        if h in a.approved && LockInputs(a.store, book(h), h, fork).Ok? {
          MintEntriesMatch(book, a.store, h);
          LockInputsEffect(a.store, book(h), h, fork);
        }
      case OpWrite(_) =>
      case OpSnapshot(_, snapshot) =>
        if h !in a.store.finals && WriteSnapshot(a.store, book(h), h, snapshot).Ok? {
          FinalizeUtxos(book, a.store, h, snapshot);
        }
    }
  }

  lemma {:induction false} RunGrows(book: Book, ops: seq<Op>, more: seq<Op>)
    ensures var s, s' := Execs(book, ops).store, Execs(book, ops + more).store;
            && (forall h <- s.finals :: h in s'.finals && s'.finals[h] == s.finals[h])
            && s.utxos.Keys <= s'.utxos.Keys
    decreases |more|
  {
    if more == [] {
      assert ops + more == ops;
    } else {
      var pre := ops + more[..|more| - 1];
      assert ops + more == pre + [more[|more| - 1]];
      RunGrows(book, ops, more[..|more| - 1]);
      RunKeeps(book, pre);
      ExecGrows(book, Execs(book, pre), more[|more| - 1]);
    }
  }

  /** A finalised transaction is never pruned, is finalised once, and holds what it spends
      for ever, whatever forks are forced later. */
  lemma {:induction false} FinalityIsForever(book: Book, ops: seq<Op>, more: seq<Op>, h: Hash)
    requires h in Execs(book, ops).store.finals
    ensures var s := Execs(book, ops + more).store;
            && h in s.txs && h in s.finals && s.finals[h] == Execs(book, ops).store.finals[h]
            && HoldsClaims(s, book(h), h)
  {
    RunGrows(book, ops, more);
    RunKeeps(book, ops + more);
  }
}
