/** The store as the kernel drives it: each method is one badger transaction, a working copy
    that is committed whole or dropped. */
module BadgerStore {
  import opened Ledger
  import opened LedgerSafety

  class Badger {
    var db: Store

    constructor ()
      ensures db == Store(map[], map[], map[], map[], {}, map[])
    {
      db := Store(map[], map[], map[], map[], {}, map[]);
    }

    /** Either every input passes to `tx`, each lawfully, or nothing changes. */
    method LockUtxoInputs(inputs: seq<Input>, tx: Hash, fork: bool) returns (ok: bool)
      modifies this
      ensures ok == LockUtxos(old(db), inputs, tx, fork).Ok?
      ensures db == if ok then LockUtxos(old(db), inputs, tx, fork).value else old(db)
      ensures ok ==> Locked(old(db), db, tx, fork, SpendClaims(inputs))
    {
      var txn := db;
      for n := 0 to |inputs|
        invariant db == old(db) && LockUtxos(db, inputs[..n], tx, fork) == Ok(txn)
      {
        assert inputs[..n + 1][..n] == inputs[..n];
        var step := if inputs[n].Spend? then LockUtxo(txn, inputs[n].hash, inputs[n].index, tx, fork) else Err;
        if step.Err? {
          LockFailsEarly(db, inputs, n + 1, tx, fork);
          return false;
        }
        txn := step.value;
      }
      assert inputs[..|inputs|] == inputs;
      LockUtxosEffect(db, inputs, tx, fork);
      db := txn;
      return true;
    }

    /** A deposit can be taken if it is free, its own, or, in a fork, held by a transaction that
        is not final. */
    method LockDepositInput(unique: Key, tx: Hash, fork: bool) returns (ok: bool)
      modifies this
      ensures var s := old(db);
              ok <==> (unique in s.deposits && s.deposits[unique] != tx ==> fork && s.deposits[unique] !in s.finals)
      ensures db == if ok then LockDeposit(old(db), unique, tx, fork).value else old(db)
      ensures ok ==> Locked(old(db), db, tx, fork, iset{OnDeposit(unique)})
    {
      if LockDeposit(db, unique, tx, fork).Ok? {
        LockDepositEffect(db, unique, tx, fork);
      }
      var txn := db;
      if unique in txn.deposits {
        var holder := txn.deposits[unique];
        if holder == tx {
          return true;
        }
        if !fork || holder in txn.finals {
          return false;
        }
        txn := txn.(txs := txn.txs - {holder});
      }
      db := txn.(deposits := txn.deposits[unique := tx]);
      return true;
    }

    /** A mint batch can be taken if it is free, already locked with the same amount, or, in a
        fork, held by a transaction that is not final. */
    method LockMintInput(mint: Input, tx: Hash, fork: bool) returns (ok: bool)
      requires mint.Mint?
      modifies this
      ensures var s := old(db);
              ok <==> (mint.batch in s.mints &&
                       !(s.mints[mint.batch].tx == tx && s.mints[mint.batch].amount == mint.minted) ==>
                         fork && s.mints[mint.batch].tx !in s.finals)
      ensures db == if ok then LockMint(old(db), mint, tx, fork).value else old(db)
      ensures ok && (mint.batch in old(db).mints && old(db).mints[mint.batch].tx == tx ==>
                     old(db).mints[mint.batch].amount == mint.minted) ==>
                Locked(old(db), db, tx, fork, iset{OnMint(mint.batch)})
    {
      if LockMint(db, mint, tx, fork).Ok? &&
          (mint.batch in db.mints && db.mints[mint.batch].tx == tx ==> db.mints[mint.batch].amount == mint.minted) {
        LockMintEffect(db, mint, tx, fork);
      }
      var txn := db;
      if mint.batch in txn.mints {
        var holder := txn.mints[mint.batch];
        if holder.tx == tx && holder.amount == mint.minted {
          return true;
        }
        if !fork || holder.tx in txn.finals {
          return false;
        }
        txn := txn.(txs := txn.txs - {holder.tx});
      }
      db := txn.(mints := txn.mints[mint.batch := MintLock(mint.group, mint.minted, tx)]);
      return true;
    }

    /** Ghost keys are locked together or not at all; a repeated key is an error. */
    method LockGhostKeys(keys: seq<Key>, tx: Hash) returns (ok: bool)
      modifies this
      ensures ok == (Distinct(keys) && forall k <- keys :: k in old(db).ghosts ==> old(db).ghosts[k] == tx)
      ensures db == old(db).(ghosts := db.ghosts)
      ensures forall k :: k in db.ghosts <==> k in old(db).ghosts || (ok && k in keys)
      ensures forall k <- db.ghosts :: db.ghosts[k] == if k in old(db).ghosts then old(db).ghosts[k] else tx
    {
      var txn, filter := db.ghosts, {};
      for n := 0 to |keys|
        invariant db == old(db)
        invariant filter == set k <- keys[..n]
        invariant Distinct(keys[..n])
        invariant forall k <- keys[..n] :: k in db.ghosts ==> db.ghosts[k] == tx
        invariant forall k :: k in txn <==> k in db.ghosts || k in keys[..n]
        invariant forall k <- txn :: txn[k] == if k in db.ghosts then db.ghosts[k] else tx
      {
        assert keys[..n + 1] == keys[..n] + [keys[n]];
        if keys[n] in filter {
          return false;
        }
        filter := filter + {keys[n]};
        if keys[n] in txn {
          if txn[keys[n]] != tx {
            return false;
          }
        } else {
          txn := txn[keys[n] := tx];
        }
      }
      assert keys[..|keys|] == keys;
      db := db.(ghosts := txn);
      return true;
    }

    /** Persisting succeeds exactly when every claim of a well formed transaction is its own. */
    method WriteTransaction(tx: Transaction, h: Hash) returns (ok: bool)
      modifies this
      ensures ok == forall i <- tx.inputs :: HoldsInput(old(db), i, h)
      ensures db == if ok then old(db).(txs := old(db).txs + {h}) else old(db)
      ensures ok ==> HoldsClaims(db, tx, h)
    {
      for n := 0 to |tx.inputs|
        invariant db == old(db) && forall i <- tx.inputs[..n] :: HoldsInput(db, i, h)
      {
        if !HoldsInput(db, tx.inputs[n], h) {
          assert tx.inputs[n] in tx.inputs;
          return false;
        }
        assert tx.inputs[..n + 1] == tx.inputs[..n] + [tx.inputs[n]];
      }
      assert tx.inputs[..|tx.inputs|] == tx.inputs;
      HeldIsOwned(db, tx, h);
      if h !in db.txs {
        db := db.(txs := db.txs + {h});
      }
      assert db == old(db).(txs := old(db).txs + {h});
      return true;
    }

    method LockTransactionInputs(tx: Transaction, h: Hash, fork: bool) returns (ok: bool)
      modifies this
      ensures ok == LockInputs(old(db), tx, h, fork).Ok?
      ensures db == if ok then LockInputs(old(db), tx, h, fork).value else old(db)
    {
      var t := TransactionType(tx);
      if t.TxMint? {
        if tx.inputs == [] || !tx.inputs[0].Mint? {
          return false;
        }
        ok := LockMintInput(tx.inputs[0], h, fork);
      } else if t.TxDeposit? {
        if tx.inputs == [] || !tx.inputs[0].Deposit? {
          return false;
        }
        ok := LockDepositInput(tx.inputs[0].unique, h, fork);
      } else {
        ok := LockUtxoInputs(tx.inputs, h, fork);
      }
    }

    /** Lock, then persist.  For a transaction that passed validation the assertions made on
        persisting never fail: it is persisted exactly when it could be locked. */
    method LockAndPersistTransaction(tx: Transaction, h: Hash, fork: bool) returns (ok: bool)
      requires Structured(tx) && h != 0
      modifies this
      ensures ok == LockInputs(old(db), tx, h, fork).Ok?
      ensures db == if ok then var s := LockInputs(old(db), tx, h, fork).value; s.(txs := s.txs + {h}) else old(db)
      ensures ok ==> h in db.txs && HoldsClaims(db, tx, h)
    {
      ok := LockTransactionInputs(tx, h, fork);
      if ok {
        LockedHolds(old(db), tx, h, fork);
        ok := WriteTransaction(tx, h);
      }
    }

    /** The first snapshot of a persisted transaction writes its outputs; later ones, and
        failing ones, write nothing. */
    method WriteSnapshotOf(tx: Transaction, h: Hash, snapshot: Hash) returns (ok: bool)
      modifies this
      ensures ok == WriteSnapshot(old(db), tx, h, snapshot).Ok?
      ensures db == if ok then WriteSnapshot(old(db), tx, h, snapshot).value else old(db)
      ensures h in old(db).finals ==> db == old(db)
    {
      if h !in db.txs {
        return false;
      }
      if h in db.finals {
        return true;
      }
      var txn := db.(finals := db.finals[h := snapshot]);
      ghost var start := txn;
      for n := 0 to |tx.outputs|
        invariant db == old(db) && WriteUtxos(start, tx, h, n) == Ok(txn)
      {
        var step := WriteUtxo(txn, tx, h, n);
        if step.Err? {
          WriteFailsEarly(start, tx, h, n + 1, |tx.outputs|);
          return false;
        }
        txn := step.value;
      }
      db := txn;
      return true;
    }

    /** The validation of outputs: the total, the ghost keys locked on success. */
    method ValidateOutputs(outs: seq<Output>, h: Hash) returns (r: Result<Amount>)
      modifies this
      ensures r == (var t := TallyOutputs(outs);
                    if t.Err? || LockGhosts(old(db).ghosts, t.value.keys, h).Err? then Err else Ok(OutputSum(outs)))
      ensures var g := old(db).ghosts;
              db == old(db).(ghosts := if r.Ok? then LockGhosts(g, TallyOutputs(outs).value.keys, h).value else g)
    {
      var tally := Tally([], 0);
      for n := 0 to |outs|
        invariant db == old(db) && TallyOutputs(outs[..n]) == Ok(tally)
      {
        assert outs[..n + 1][..n] == outs[..n];
        var step := TallyOutput(tally, outs[n]);
        if step.Err? {
          TallyFailsEarly(outs, n + 1);
          return Err;
        }
        tally := step.value;
      }
      assert outs[..|outs|] == outs;
      TallyMeaning(outs);
      GhostsExactly(db.ghosts, tally.keys, h);
      var ok := LockGhostKeys(tally.keys, h);
      if !ok {
        assert db.ghosts == old(db).ghosts;
        return Err;
      }
      assert db.ghosts == LockGhosts(old(db).ghosts, tally.keys, h).value;
      return Ok(tally.amount);
    }

    /** Inputs, then outputs, then the rules of the transaction's type.  What is accepted is
        balanced; what is refused changes ghost locks at most. */
    method ValidateTransaction(tx: Transaction, h: Hash, fork: bool, checks: Checks) returns (ok: bool)
      modifies this
      ensures (ok, db) == Validate(old(db), tx, h, fork, checks)
      ensures ok ==> Balanced(old(db), tx) && Structured(tx)
      ensures db == old(db).(ghosts := db.ghosts)
    {
      ValidateEffect(db, tx, h, fork, checks);
      if !ShapeChecks(db, tx) || !checks.signed {
        return false;
      }
      var s := db;
      var scan := ValidateInputs(s, tx, h, fork);
      if scan.Err? {
        return false;
      }
      var output := ValidateOutputs(tx.outputs, h);
      if output.Err? {
        assert db == s;
        return false;
      }
      TallyMeaning(tx.outputs);
      ok := scan.value.amount > 0 && scan.value.amount == output.value &&
          TypeChecks(s, tx, h, scan.value, checks.agreed);
      if ok {
        ValidateSound(s, tx, h, fork, checks);
        ValidTypeOutputs(s, tx, h, scan.value, checks.agreed);
      }
    }

    /** A transaction that is not persisted yet is validated, locked and persisted; a persisted
        one is left as it is.  `kernel` is the verdict of the kernel's own checks. */
    method ValidateSnapshotTransaction(tx: Transaction, h: Hash, finalized: bool, checks: Checks, kernel: bool)
      returns (ok: bool)
      requires h != 0
      modifies this
      ensures h in old(db).txs ==> ok == kernel && db == old(db)
      ensures h !in old(db).txs ==>
                var (valid, s) := Validate(old(db), tx, h, finalized, checks);
                var locked := LockInputs(s, tx, h, finalized);
                && ok == (valid && kernel && locked.Ok?)
                && db == (if ok then locked.value.(txs := locked.value.txs + {h}) else s)
                && (ok ==> Balanced(old(db), tx) && HoldsClaims(db, tx, h))
    {
      if h in db.txs {
        return kernel;
      }
      ok := ValidateTransaction(tx, h, finalized, checks);
      if !kernel {
        return false;
      }
      if ok {
        ok := LockAndPersistTransaction(tx, h, finalized);
      }
    }
  }

  /** The type of a transaction, by one scan of its inputs and one of its outputs. */
  method TransactionType(tx: Transaction) returns (t: TxType)
    ensures t == TypeOf(tx)
    ensures t.TxScript? ==> (forall i <- tx.inputs :: i.Spend?) && forall o <- tx.outputs :: o.typ == Script
  {
    TypeMeaning(tx);
    for n := 0 to |tx.inputs|
      invariant InputsType(tx.inputs) == InputsType(tx.inputs[n..])
    {
      var i := tx.inputs[n];
      assert tx.inputs[n..][1..] == tx.inputs[n + 1..];
      if i.Mint? {
        return TxMint;
      }
      if i.Deposit? {
        return TxDeposit;
      }
      if i.Genesis? {
        return TxUnknown;
      }
    }
    var isScript := true;
    for n := 0 to |tx.outputs|
      invariant var rest := OutputsType(tx.outputs[n..]);
                OutputsType(tx.outputs) == if rest.TxScript? && !isScript then TxUnknown else rest
    {
      assert tx.outputs[n..][1..] == tx.outputs[n + 1..];
      var special := SpecialType(tx.outputs[n].typ);
      if special.Ok? {
        return special.value;
      }
      isScript := isScript && tx.outputs[n].typ.Script?;
    }
    return if isScript then TxScript else TxUnknown;
  }

  /** The scan over the inputs, stopping at the first mint or deposit. */
  method ValidateInputs(s: Store, tx: Transaction, h: Hash, fork: bool) returns (r: Result<Scan>)
    ensures r == ScanInputs(s, tx, h, fork, |tx.inputs|)
    ensures r.Ok? && (forall i <- tx.inputs :: i.Spend?) ==>
              SpendsExisting(s, tx.asset, tx.inputs) && r.value.amount == InputSum(s, tx.inputs)
  {
    var scan := Scan({}, [], 0, false);
    for n := 0 to |tx.inputs|
      invariant ScanInputs(s, tx, h, fork, n) == Ok(scan) && !scan.done
    {
      var step := ScanInput(s, tx, h, fork, scan, tx.inputs[n]);
      assert ScanInputs(s, tx, h, fork, n + 1) == step;
      assert tx.inputs[n] in tx.inputs;
      if step.Err? || step.value.done {
        ScanStopsEarly(s, tx, h, fork, n + 1, |tx.inputs|);
        return step;
      }
      scan := step.value;
    }
    if forall i <- tx.inputs :: i.Spend? {
      ScanMeaning(s, tx, h, fork, |tx.inputs|);
      assert tx.inputs[..|tx.inputs|] == tx.inputs;
    }
    return Ok(scan);
  }

  // ----- an error or an early stop decides the whole loop

  lemma {:induction false} LockFailsEarly(s: Store, ins: seq<Input>, n: nat, tx: Hash, fork: bool)
    requires n <= |ins| && LockUtxos(s, ins[..n], tx, fork).Err?
    ensures LockUtxos(s, ins, tx, fork).Err?
    decreases |ins|
  {
    if n < |ins| {
      assert ins[..|ins| - 1][..n] == ins[..n];
      LockFailsEarly(s, ins[..|ins| - 1], n, tx, fork);
    } else {
      assert ins[..n] == ins;
    }
  }

  lemma {:induction false} WriteFailsEarly(s: Store, tx: Transaction, h: Hash, n: nat, m: nat)
    requires n <= m <= |tx.outputs| && WriteUtxos(s, tx, h, n).Err?
    ensures WriteUtxos(s, tx, h, m).Err?
  {
    if n < m {
      WriteFailsEarly(s, tx, h, n, m - 1);
    }
  }

  lemma {:induction false} TallyFailsEarly(outs: seq<Output>, n: nat)
    requires n <= |outs| && TallyOutputs(outs[..n]).Err?
    ensures TallyOutputs(outs).Err?
    decreases |outs|
  {
    if n < |outs| {
      assert outs[..|outs| - 1][..n] == outs[..n];
      TallyFailsEarly(outs[..|outs| - 1], n);
    } else {
      assert outs[..n] == outs;
    }
  }

  lemma {:induction false} ScanStopsEarly(s: Store, tx: Transaction, h: Hash, fork: bool, n: nat, m: nat)
    requires n <= m <= |tx.inputs|
    requires var p := ScanInputs(s, tx, h, fork, n); p.Err? || p.value.done
    ensures ScanInputs(s, tx, h, fork, m) == ScanInputs(s, tx, h, fork, n)
  {
    if n < m {
      ScanStopsEarly(s, tx, h, fork, n, m - 1);
    }
  }

  lemma {:induction false} HeldIsOwned(s: Store, tx: Transaction, h: Hash)
    requires forall i <- tx.inputs :: HoldsInput(s, i, h)
    ensures HoldsClaims(s, tx, h)
  {
  }

  /** Locking distinct ghost keys one after the other is locking them together. */
  lemma {:induction false} GhostsExactly(ghosts: map<Key, Hash>, keys: seq<Key>, h: Hash)
    ensures LockGhosts(ghosts, keys, h).Ok? <==> forall k <- keys :: k in ghosts ==> ghosts[k] == h
    ensures LockGhosts(ghosts, keys, h).Ok? ==>
              var g := LockGhosts(ghosts, keys, h).value;
              && (forall k :: k in g <==> k in ghosts || k in keys)
              && (forall k <- g :: g[k] == if k in ghosts then ghosts[k] else h)
    decreases |keys|
  {
    if keys != [] {
      GhostsExactly(ghosts, keys[..|keys| - 1], h);
      assert keys == keys[..|keys| - 1] + [keys[|keys| - 1]];
    }
  }

  /** Locking gives the transaction every input it names. */
  lemma {:induction false} LockedHolds(s: Store, tx: Transaction, h: Hash, fork: bool)
    requires Structured(tx) && h != 0 && LockInputs(s, tx, h, fork).Ok?
    ensures forall i <- tx.inputs :: HoldsInput(LockInputs(s, tx, h, fork).value, i, h)
  {
    var s' := LockInputs(s, tx, h, fork).value;
    if TypeOf(tx) in {TxMint, TxDeposit} {
      assert tx.inputs == [tx.inputs[0]];
    } else {
      LockUtxosEffect(s, tx.inputs, h, fork);
      forall i <- tx.inputs
        ensures HoldsInput(s', i, h)
      {
        assert OnUtxo(i.hash, i.index) in SpendClaims(tx.inputs);
        assert Owner(s', OnUtxo(i.hash, i.index)) == h;
      }
    }
  }
}
