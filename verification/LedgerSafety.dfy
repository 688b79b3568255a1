/** What every run of the ledger keeps: persisted transactions hold what they spend, finalised
    ones are never pruned and never conflict. */
module LedgerSafety {
  import opened Ledger

  // ----- the effect of each step

  /** `b` differs from `a` only in locks and in transactions pruned before finalisation. */
  ghost predicate OnlyLocksMoved(a: Store, b: Store) {
    && b.finals == a.finals && b.ghosts == a.ghosts && b.txs <= a.txs
    && (forall g <- a.txs :: g !in b.txs ==> g !in a.finals)
    && b.utxos.Keys == a.utxos.Keys
    && (forall k <- a.utxos :: b.utxos[k] == a.utxos[k].(lock := b.utxos[k].lock))
  }

  /** Claim `c` passed to `h`, lawfully: it was free, it was its own, or (only with `fork`)
      its previous owner was pruned. */
  ghost predicate Taken(a: Store, b: Store, c: Claim, h: Hash, fork: bool) {
    var g := Owner(a, c);
    Owner(b, c) == h && (g == 0 || g == h || (fork && g !in a.finals && g !in b.txs))
  }

  /** `h` took exactly the claims in `cs` and every other claim kept its owner. */
  ghost predicate Locked(a: Store, b: Store, h: Hash, fork: bool, cs: iset<Claim>) {
    && OnlyLocksMoved(a, b)
    && (h in a.txs ==> h in b.txs)
    && (forall c: Claim :: c in cs ==> Taken(a, b, c, h, fork))
    && (forall c: Claim :: c !in cs ==> Owner(b, c) == Owner(a, c))
  }

  ghost function SpendClaims(ins: seq<Input>): iset<Claim> {
    iset c: Claim | c.OnUtxo? && Spend(c.hash, c.index) in ins
  }

  ghost function ClaimsOf(tx: Transaction): iset<Claim> {
    iset c: Claim | Claims(tx, c)
  }

  lemma {:induction false} LockUtxoEffect(s: Store, hash: Hash, index: nat, h: Hash, fork: bool)
    requires LockUtxo(s, hash, index, h, fork).Ok?
    ensures Locked(s, LockUtxo(s, hash, index, h, fork).value, h, fork, iset{OnUtxo(hash, index)})
  {
    var s' := LockUtxo(s, hash, index, h, fork).value;
    assert s'.utxos == s.utxos[(hash, index) := s.utxos[(hash, index)].(lock := h)];
    forall c: Claim
      ensures if c == OnUtxo(hash, index) then Taken(s, s', c, h, fork) else Owner(s', c) == Owner(s, c)
    {
    }
  }

  lemma {:induction false} LockUtxosEffect(s: Store, ins: seq<Input>, h: Hash, fork: bool)
    requires LockUtxos(s, ins, h, fork).Ok?
    ensures Locked(s, LockUtxos(s, ins, h, fork).value, h, fork, SpendClaims(ins))
    ensures forall i <- ins :: i.Spend? && (i.hash, i.index) in s.utxos
    decreases |ins|
  {
    if ins != [] {
      var pre, last := ins[..|ins| - 1], ins[|ins| - 1];
      LockUtxosEffect(s, pre, h, fork);
      var p := LockUtxos(s, pre, h, fork).value;
      LockUtxoEffect(p, last.hash, last.index, h, fork);
      var s' := LockUtxos(s, ins, h, fork).value;
      assert ins == pre + [last];
      forall c: Claim
        ensures c in SpendClaims(ins) ==> Taken(s, s', c, h, fork)
        ensures c !in SpendClaims(ins) ==> Owner(s', c) == Owner(s, c)
      {
        assert c in SpendClaims(ins) <==> c in SpendClaims(pre) || c == OnUtxo(last.hash, last.index);
      }
    }
  }

  lemma {:induction false} LockDepositEffect(s: Store, k: Key, h: Hash, fork: bool)
    requires LockDeposit(s, k, h, fork).Ok?
    ensures Locked(s, LockDeposit(s, k, h, fork).value, h, fork, iset{OnDeposit(k)})
  {
    var s' := LockDeposit(s, k, h, fork).value;
    assert s' == s.(deposits := s'.deposits, txs := s'.txs);
    forall c: Claim
      ensures if c == OnDeposit(k) then Taken(s, s', c, h, fork) else Owner(s', c) == Owner(s, c)
    {
    }
  }

  lemma {:induction false} LockMintEffect(s: Store, mint: Input, h: Hash, fork: bool)
    requires mint.Mint? && LockMint(s, mint, h, fork).Ok?
    requires mint.batch in s.mints && s.mints[mint.batch].tx == h ==> s.mints[mint.batch].amount == mint.minted
    ensures Locked(s, LockMint(s, mint, h, fork).value, h, fork, iset{OnMint(mint.batch)})
  {
    var s' := LockMint(s, mint, h, fork).value;
    assert s' == s.(mints := s'.mints, txs := s'.txs);
    forall c: Claim
      ensures if c == OnMint(mint.batch) then Taken(s, s', c, h, fork) else Owner(s', c) == Owner(s, c)
    {
    }
  }

  lemma {:induction false} LockInputsEffect(s: Store, tx: Transaction, h: Hash, fork: bool)
    requires Structured(tx) && MintsMatch(s, tx, h)
    requires LockInputs(s, tx, h, fork).Ok?
    ensures Locked(s, LockInputs(s, tx, h, fork).value, h, fork, ClaimsOf(tx))
  {
    if TypeOf(tx).TxMint? {
      LockMintEffect(s, tx.inputs[0], h, fork);
      assert ClaimsOf(tx) == iset{OnMint(tx.inputs[0].batch)};
    } else if TypeOf(tx).TxDeposit? {
      LockDepositEffect(s, tx.inputs[0].unique, h, fork);
      assert ClaimsOf(tx) == iset{OnDeposit(tx.inputs[0].unique)};
    } else {
      LockUtxosEffect(s, tx.inputs, h, fork);
      assert ClaimsOf(tx) == SpendClaims(tx.inputs);
    }
  }

  /** A lock entry of `h` on a mint batch carries the amount `h` mints. */
  ghost predicate MintsMatch(s: Store, tx: Transaction, h: Hash) {
    forall m <- tx.inputs :: m.Mint? && m.batch in s.mints && s.mints[m.batch].tx == h ==>
      s.mints[m.batch].amount == m.minted
  }

  // ----- what validation establishes

  /** One mint input, one deposit input, or outputs to spend. */
  predicate Structured(tx: Transaction) {
    if TypeOf(tx).TxMint? then |tx.inputs| == 1 && tx.inputs[0].Mint?
    else if TypeOf(tx).TxDeposit? then |tx.inputs| == 1 && tx.inputs[0].Deposit?
    else forall i <- tx.inputs :: i.Spend?
  }

  function OutputSum(outs: seq<Output>): Amount {
    if outs == [] then 0 else OutputSum(outs[..|outs| - 1]) + outs[|outs| - 1].amount
  }

  function SpentAmount(s: Store, i: Input): Amount {
    if i.Spend? && (i.hash, i.index) in s.utxos then s.utxos[(i.hash, i.index)].amount else 0
  }

  function InputSum(s: Store, ins: seq<Input>): Amount {
    if ins == [] then 0 else InputSum(s, ins[..|ins| - 1]) + SpentAmount(s, ins[|ins| - 1])
  }

  ghost predicate DistinctInputs(ins: seq<Input>) {
    forall i, j | 0 <= i < j < |ins| :: ins[i] != ins[j]
  }

  ghost predicate SpendsExisting(s: Store, asset: Asset, ins: seq<Input>) {
    && DistinctInputs(ins)
    && (forall i <- ins :: i.Spend? && (i.hash, i.index) in s.utxos && s.utxos[(i.hash, i.index)].asset == asset)
  }

  /** The transaction creates exactly what it consumes, mints or deposits. */
  ghost predicate Balanced(s: Store, tx: Transaction) {
    && Structured(tx)
    && (forall o <- tx.outputs :: Known(o.typ))
    && (forall o <- tx.outputs :: o.amount > 0)
    && match TypeOf(tx) {
      case TxMint => OutputSum(tx.outputs) == tx.inputs[0].minted
      case TxDeposit => OutputSum(tx.outputs) == tx.inputs[0].deposited
      case _ => SpendsExisting(s, tx.asset, tx.inputs) && OutputSum(tx.outputs) == InputSum(s, tx.inputs)
    }
  }

  lemma {:induction false} InputsTypeMeaning(ins: seq<Input>)
    ensures InputsType(ins).Err? <==> forall i <- ins :: i.Spend?
    ensures InputsType(ins).Ok? ==> InputsType(ins).value in {TxMint, TxDeposit, TxUnknown}
  {
    if ins != [] {
      InputsTypeMeaning(ins[1..]);
      assert ins[0] in ins;
      assert forall i :: i in ins <==> i == ins[0] || i in ins[1..];
    }
  }

  lemma {:induction false} OutputsTypeMeaning(outs: seq<Output>)
    ensures OutputsType(outs) !in {TxMint, TxDeposit}
    ensures OutputsType(outs) == TxScript ==> forall o <- outs :: o.typ == Script
  {
    if outs != [] {
      OutputsTypeMeaning(outs[1..]);
      assert outs == [outs[0]] + outs[1..];
    }
  }

  /** Apart from mint and deposit, every accepted kind spends outputs only. */
  lemma {:induction false} TypeMeaning(tx: Transaction)
    ensures TypeOf(tx) !in {TxMint, TxDeposit, TxUnknown} ==> forall i <- tx.inputs :: i.Spend?
    ensures TypeOf(tx) == TxScript ==> forall o <- tx.outputs :: o.typ == Script
  {
    InputsTypeMeaning(tx.inputs);
    OutputsTypeMeaning(tx.outputs);
  }

  lemma {:induction false} ScanMeaning(s: Store, tx: Transaction, h: Hash, fork: bool, n: nat)
    requires n <= |tx.inputs| && ScanInputs(s, tx, h, fork, n).Ok?
    requires forall i <- tx.inputs :: i.Spend?
    ensures var p := ScanInputs(s, tx, h, fork, n).value;
            && !p.done
            && SpendsExisting(s, tx.asset, tx.inputs[..n])
            && p.amount == InputSum(s, tx.inputs[..n])
            && (forall k :: k in p.seen <==> Spend(k.0, k.1) in tx.inputs[..n])
  {
    if n > 0 {
      ScanMeaning(s, tx, h, fork, n - 1);
      assert tx.inputs[..n] == tx.inputs[..n - 1] + [tx.inputs[n - 1]];
      assert tx.inputs[n - 1] in tx.inputs;
    }
  }

  lemma {:induction false} TallyMeaning(outs: seq<Output>)
    requires TallyOutputs(outs).Ok?
    ensures TallyOutputs(outs).value.amount == OutputSum(outs)
    ensures forall o <- outs :: o.amount > 0
    ensures Distinct(TallyOutputs(outs).value.keys)
    decreases |outs|
  {
    if outs != [] {
      var init, last := outs[..|outs| - 1], outs[|outs| - 1];
      TallyMeaning(init);
      assert outs == init + [last];
      assert TallyOutputs(outs) == TallyOutput(TallyOutputs(init).value, last);
    }
  }

  lemma {:induction false} LockGhostsEffect(ghosts: map<Key, Hash>, keys: seq<Key>, h: Hash)
    requires LockGhosts(ghosts, keys, h).Ok?
    ensures var g := LockGhosts(ghosts, keys, h).value;
            && (forall k <- ghosts :: k in g && g[k] == ghosts[k])
            && (forall k <- keys :: k in g && g[k] == h)
    decreases |keys|
  {
    if keys != [] {
      LockGhostsEffect(ghosts, keys[..|keys| - 1], h);
      assert keys == keys[..|keys| - 1] + [keys[|keys| - 1]];
    }
  }

  /** Validation changes nothing but ghost locks, and takes none away. */
  lemma {:induction false} ValidateEffect(s: Store, tx: Transaction, h: Hash, fork: bool, checks: Checks)
    ensures var s' := Validate(s, tx, h, fork, checks).1;
            && s' == s.(ghosts := s'.ghosts)
            && (forall k <- s.ghosts :: k in s'.ghosts && s'.ghosts[k] == s.ghosts[k])
  {
    var tally := TallyOutputs(tx.outputs);
    if tally.Ok? && LockGhosts(s.ghosts, tally.value.keys, h).Ok? {
      LockGhostsEffect(s.ghosts, tally.value.keys, h);
    }
  }

  /** Every transaction that validates creates exactly what it consumes and has only outputs
      that `UnspentOutputs` knows. */
  lemma {:induction false} ValidateSound(s: Store, tx: Transaction, h: Hash, fork: bool, checks: Checks)
    requires Validate(s, tx, h, fork, checks).0
    ensures Balanced(s, tx)
  {
    var scan := ScanInputs(s, tx, h, fork, |tx.inputs|).value;
    TallyMeaning(tx.outputs);
    ValidTypeOutputs(s, tx, h, scan, checks.agreed);
    ValidTypeInputs(s, tx, h, fork);
  }

  lemma {:induction false} ValidTypeInputs(s: Store, tx: Transaction, h: Hash, fork: bool)
    requires ScanInputs(s, tx, h, fork, |tx.inputs|).Ok? && TypeOf(tx) != TxUnknown && Structured(tx)
    ensures var a := ScanInputs(s, tx, h, fork, |tx.inputs|).value.amount;
            match TypeOf(tx) {
              case TxMint => a == tx.inputs[0].minted
              case TxDeposit => a == tx.inputs[0].deposited
              case _ => SpendsExisting(s, tx.asset, tx.inputs) && a == InputSum(s, tx.inputs)
            }
  {
    var n := |tx.inputs|;
    if TypeOf(tx) in {TxMint, TxDeposit} {
      assert ScanInputs(s, tx, h, fork, 0) == Ok(Scan({}, [], 0, false));
      assert ScanInputs(s, tx, h, fork, 1) == ScanInput(s, tx, h, fork, Scan({}, [], 0, false), tx.inputs[0]);
    } else {
      ScanMeaning(s, tx, h, fork, n);
      assert tx.inputs[..n] == tx.inputs;
    }
  }

  lemma {:induction false} ValidTypeOutputs(s: Store, tx: Transaction, h: Hash, scan: Scan, agreed: bool)
    requires TypeOf(tx) != TxUnknown && TypeChecks(s, tx, h, scan, agreed)
    ensures Structured(tx) && forall o <- tx.outputs :: Known(o.typ)
  {
    TypeMeaning(tx);
    if |tx.outputs| == 1 && TypeOf(tx) !in {TxMint, TxDeposit} {
      SingleOutputType(tx);
    }
  }

  /** A one-output transaction of a special kind has the output type it is named after. */
  lemma {:induction false} SingleOutputType(tx: Transaction)
    requires |tx.outputs| == 1 && TypeOf(tx) !in {TxMint, TxDeposit, TxUnknown}
    ensures var t := tx.outputs[0].typ;
            if SpecialType(t).Ok? then TypeOf(tx) == SpecialType(t).value else t == Script && TypeOf(tx) == TxScript
  {
    InputsTypeMeaning(tx.inputs);
    assert tx.outputs[1..] == [];
    assert OutputsType(tx.outputs[1..]) == TxScript;
  }
}
