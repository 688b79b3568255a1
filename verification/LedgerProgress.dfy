/** What a transaction needs to be locked and persisted, and what that displaces. */
module LedgerProgress {
  import opened Ledger
  import opened LedgerSafety
  import opened LedgerRuns
  import opened LedgerAccepts
  import BadgerStore

  /** A lock held by `g` passes to `h`: it is free, its own, or in a fork that of a transaction that
      is not final. */
  ghost predicate Yields(s: Store, g: Hash, h: Hash, fork: bool) {
    g == 0 || g == h || (fork && g !in s.finals)
  }

  ghost predicate Lockable(s: Store, i: Input, h: Hash, fork: bool) {
    match i
    case Spend(hash, index) => (hash, index) in s.utxos && Yields(s, s.utxos[(hash, index)].lock, h, fork)
    case Deposit(k, _) => k in s.deposits ==> s.deposits[k] == h || (fork && s.deposits[k] !in s.finals)
    case Mint(_, b, amount) =>
      b in s.mints ==> (s.mints[b].tx == h && s.mints[b].amount == amount) || (fork && s.mints[b].tx !in s.finals)
    case Genesis => true
  }

  function ClaimOf(i: Input): Claim
    requires !i.Genesis?
  {
    match i
    case Spend(hash, index) => OnUtxo(hash, index)
    case Deposit(k, _) => OnDeposit(k)
    case Mint(_, b, _) => OnMint(b)
  }

  /** The transactions that lose an input to `h`. */
  ghost function Displaced(s: Store, ins: seq<Input>, h: Hash): set<Hash> {
    set i <- ins | !i.Genesis? && Owner(s, ClaimOf(i)) !in {0, h} :: Owner(s, ClaimOf(i))
  }

  // ----- locking

  lemma {:induction false} LockUtxosIff(s: Store, ins: seq<Input>, h: Hash, fork: bool)
    requires h != 0 && forall i <- ins :: i.Spend?
    ensures LockUtxos(s, ins, h, fork).Ok? <==> forall i <- ins :: Lockable(s, i, h, fork)
    ensures LockUtxos(s, ins, h, fork).Ok? ==> LockUtxos(s, ins, h, fork).value.txs == s.txs - Displaced(s, ins, h)
    decreases |ins|
  {
    if ins != [] {
      var pre, last := ins[..|ins| - 1], ins[|ins| - 1];
      assert ins == pre + [last];
      LockUtxosIff(s, pre, h, fork);
      if LockUtxos(s, pre, h, fork).Ok? {
        LockOneMore(s, pre, last, h, fork);
      }
    }
  }

  lemma {:induction false} LockOneMore(s: Store, pre: seq<Input>, last: Input, h: Hash, fork: bool)
    requires h != 0 && (forall i <- pre :: i.Spend?) && last.Spend?
    requires LockUtxos(s, pre, h, fork).Ok? && LockUtxos(s, pre, h, fork).value.txs == s.txs - Displaced(s, pre, h)
    ensures var r := LockUtxo(LockUtxos(s, pre, h, fork).value, last.hash, last.index, h, fork);
            && (r.Ok? <==> Lockable(s, last, h, fork))
            && (r.Ok? ==> r.value.txs == s.txs - Displaced(s, pre + [last], h))
  {
    LockUtxosEffect(s, pre, h, fork);
    var p, k := LockUtxos(s, pre, h, fork).value, (last.hash, last.index);
    var c := OnUtxo(last.hash, last.index);
    var g := Owner(s, c);
    assert last == Spend(last.hash, last.index) && (c in SpendClaims(pre) <==> last in pre);
    assert Owner(p, c) == if last in pre then h else g;
    assert last in pre ==> Taken(s, p, c, h, fork);
    DisplacedMore(s, pre, last, h);
  }

  lemma {:induction false} DisplacedMore(s: Store, pre: seq<Input>, last: Input, h: Hash)
    requires last.Spend?
    ensures var g := Owner(s, ClaimOf(last));
            Displaced(s, pre + [last], h) == Displaced(s, pre, h) + if g in {0, h} then {} else {g}
    ensures last in pre && Owner(s, ClaimOf(last)) !in {0, h} ==> Owner(s, ClaimOf(last)) in Displaced(s, pre, h)
  {
    assert forall i :: i in pre + [last] <==> i in pre || i == last;
  }

  /** Every input has to yield, and whoever held one is no longer persisted. */
  lemma {:induction false} LockInputsIff(s: Store, tx: Transaction, h: Hash, fork: bool)
    requires Structured(tx) && h != 0 && (forall k <- s.deposits :: s.deposits[k] != 0)
    requires (forall b <- s.mints :: s.mints[b].tx != 0) && MintsMatch(s, tx, h)
    ensures LockInputs(s, tx, h, fork).Ok? <==> forall i <- tx.inputs :: Lockable(s, i, h, fork)
    ensures LockInputs(s, tx, h, fork).Ok? ==>
              LockInputs(s, tx, h, fork).value.txs == s.txs - Displaced(s, tx.inputs, h)
  {
    if TypeOf(tx) in {TxMint, TxDeposit} {
      var i := tx.inputs[0];
      assert tx.inputs == [i];
      var g := Owner(s, ClaimOf(i));
      assert Displaced(s, tx.inputs, h) == if g in {0, h} then {} else {g};
    } else {
      LockUtxosIff(s, tx.inputs, h, fork);
    }
  }

  // ----- persisting

  /** Unless a fork is forced or it mints, an accepted transaction can always be locked. */
  lemma {:induction false} AcceptedLocks(s: Store, tx: Transaction, h: Hash, checks: Checks, k: Kind)
    requires Shaped(tx, k) && Accepts(s, tx, h, false, checks, k) && !k.Minting?
    ensures forall i <- tx.inputs :: Lockable(s, i, h, false)
  {
    forall i <- tx.inputs
      ensures Lockable(s, i, h, false)
    {
      if k.Depositing? {
        assert i == tx.inputs[0];
      } else {
        assert CanSpend(s, tx.asset, i, h, false, Sources(k));
      }
    }
  }

  /** The three steps in which the kernel takes a transaction in. */
  function Persisting(h: Hash, fork: bool, checks: Checks): seq<Op> {
    [OpValidate(h, fork, checks), OpLock(h, fork), OpWrite(h)]
  }

  lemma {:induction false} RunThree(book: Book, ops: seq<Op>, a: Op, b: Op, c: Op)
    ensures Execs(book, ops + [a, b, c]) == Exec(book, Exec(book, Exec(book, Execs(book, ops), a), b), c)
  {
    var e1, e2, e3 := ops + [a], ops + [a, b], ops + [a, b, c];
    assert e1[..|ops|] == ops && e2[..|ops| + 1] == e1 && e3[..|ops| + 2] == e2;
    assert Execs(book, e2) == Exec(book, Execs(book, e1), b);
    assert Execs(book, e3) == Exec(book, Execs(book, e2), c);
  }

  /** After every run: a transaction that validation accepts is persisted by the three steps exactly
      if it was before or every input yields. */
  lemma {:induction false} PersistsIff(book: Book, ops: seq<Op>, h: Hash, fork: bool, checks: Checks)
    requires h != 0 && Validate(Execs(book, ops).store, book(h), h, fork, checks).0
    ensures var s := Execs(book, ops).store;
            h in Execs(book, ops + Persisting(h, fork, checks)).store.txs <==>
            h in s.txs || forall i <- book(h).inputs :: Lockable(s, i, h, fork)
  {
    RunKeeps(book, ops);
    RunThree(book, ops, OpValidate(h, fork, checks), OpLock(h, fork), OpWrite(h));
    PersistSteps(book, Execs(book, ops), h, fork, checks);
  }

  lemma {:induction false} PersistSteps(book: Book, a: State, h: Hash, fork: bool, checks: Checks)
    requires LedgerRuns.Inv(book, a) && h != 0 && Validate(a.store, book(h), h, fork, checks).0
    ensures var b := Exec(book, a, OpValidate(h, fork, checks));
            h in Exec(book, Exec(book, b, OpLock(h, fork)), OpWrite(h)).store.txs <==>
            h in a.store.txs || forall i <- book(h).inputs :: Lockable(a.store, i, h, fork)
  {
    var b := Exec(book, a, OpValidate(h, fork, checks));
    ValidateEffect(a.store, book(h), h, fork, checks);
    ValidateKeeps(book, a, h, fork, checks);
    PersistStep(book, b, h, fork);
    SameLocks(a.store, b.store, book(h), h, fork);
  }

  lemma {:induction false} SameLocks(s: Store, s': Store, tx: Transaction, h: Hash, fork: bool)
    requires s' == s.(ghosts := s'.ghosts)
    ensures forall i <- tx.inputs :: Lockable(s', i, h, fork) <==> Lockable(s, i, h, fork)
  {
  }

  lemma {:induction false} PersistStep(book: Book, b: State, h: Hash, fork: bool)
    requires LedgerRuns.Inv(book, b) && h in b.approved && h != 0
    ensures h in Exec(book, Exec(book, b, OpLock(h, fork)), OpWrite(h)).store.txs <==>
            h in b.store.txs || forall i <- book(h).inputs :: Lockable(b.store, i, h, fork)
  {
    var s, tx := b.store, book(h);
    MintEntriesMatch(book, s, h);
    LockInputsIff(s, tx, h, fork);
    if LockInputs(s, tx, h, fork).Ok? {
      BadgerStore.LockedHolds(s, tx, h, fork);
    } else if Write(s, tx, h).Ok? {
      forall i <- tx.inputs
        ensures Lockable(s, i, h, fork)
      {
        assert HoldsInput(s, i, h);
      }
    }
  }

  /** So without a fork everything accepted that does not mint is persisted. */
  lemma {:induction false} AcceptedPersists(book: Book, ops: seq<Op>, h: Hash, checks: Checks, k: Kind)
    requires h != 0 && Shaped(book(h), k) && !k.Minting?
    requires Accepts(Execs(book, ops).store, book(h), h, false, checks, k)
    ensures h in Execs(book, ops + Persisting(h, false, checks)).store.txs
  {
    var s := Execs(book, ops).store;
    AcceptsIff(s, book(h), h, false, checks, k);
    AcceptedLocks(s, book(h), h, checks, k);
    PersistsIff(book, ops, h, false, checks);
  }
}
