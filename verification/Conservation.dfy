/** No asset is created but by genesis, mint and deposit, and none disappears but by withdrawal. */
module Conservation {
  import opened Ledger
  import opened LedgerSafety
  import opened LedgerRuns
  import opened Sums

  type OutPoint = (Hash, nat)

  // ----- the quantities, per asset

  ghost function UtxoValue(s: Store, asset: Asset): OutPoint -> int {
    (k: OutPoint) => if k in s.utxos && s.utxos[k].asset == asset then s.utxos[k].amount else 0
  }

  function UnspendableSum(outs: seq<Output>): Amount {
    if outs == [] then 0
    else UnspendableSum(outs[..|outs| - 1]) + (if Spendable(outs[|outs| - 1].typ) then 0 else outs[|outs| - 1].amount)
  }

  /** What a transaction brings into being. */
  function IssuedBy(tx: Transaction): Amount {
    if tx.inputs == [Genesis] then OutputSum(tx.outputs)
    else if |tx.inputs| == 1 && tx.inputs[0].Mint? then tx.inputs[0].minted
    else if |tx.inputs| == 1 && tx.inputs[0].Deposit? then tx.inputs[0].deposited
    else 0
  }

  ghost function CreatedValue(book: Book, asset: Asset): Hash -> int {
    (h: Hash) => if book(h).asset == asset then OutputSum(book(h).outputs) else 0
  }

  ghost function IssuedValue(book: Book, asset: Asset): Hash -> int {
    (h: Hash) => if book(h).asset == asset then IssuedBy(book(h)) else 0
  }

  ghost function WithdrawnValue(book: Book, asset: Asset): Hash -> int {
    (h: Hash) => if book(h).asset == asset then UnspendableSum(book(h).outputs) else 0
  }

  /** Outputs not consumed by a finalised transaction. */
  ghost function Unspent(s: Store): set<OutPoint> {
    set k <- s.utxos | s.utxos[k].lock !in s.finals
  }

  ghost function Supply(s: Store, asset: Asset): int { Sum(Unspent(s), UtxoValue(s, asset)) }

  ghost function Issued(book: Book, s: Store, asset: Asset): int { Sum(s.finals.Keys, IssuedValue(book, asset)) }

  ghost function Withdrawn(book: Book, s: Store, asset: Asset): int { Sum(s.finals.Keys, WithdrawnValue(book, asset)) }

  // ----- outputs created by one transaction, and outputs it consumes

  ghost function OutputsOf(s: Store, h: Hash, n: nat): set<OutPoint> {
    set k <- s.utxos | k.0 == h && k.1 < n
  }

  lemma {:induction false} CreatedByOne(book: Book, s: Store, h: Hash, asset: Asset, n: nat)
    requires UtxosInv(book, s) && h in s.finals && n <= |book(h).outputs|
    ensures var outs := book(h).outputs[..n];
            Sum(OutputsOf(s, h, n), UtxoValue(s, asset)) ==
            if book(h).asset == asset then OutputSum(outs) - UnspendableSum(outs) else 0
  {
    var f := UtxoValue(s, asset);
    if n > 0 {
      CreatedByOne(book, s, h, asset, n - 1);
      var outs := book(h).outputs;
      assert outs[..n][..n - 1] == outs[..n - 1];
      if Spendable(outs[n - 1].typ) {
        assert OutputsOf(s, h, n) == OutputsOf(s, h, n - 1) + {(h, n - 1)};
        SumAdd(OutputsOf(s, h, n - 1), f, (h, n - 1));
      } else {
        assert OutputsOf(s, h, n) == OutputsOf(s, h, n - 1);
      }
    }
  }

  ghost function SpentBy(ins: seq<Input>): set<OutPoint> {
    set i <- ins | i.Spend? :: (i.hash, i.index)
  }

  lemma {:induction false} ConsumedSum(s: Store, ins: seq<Input>, asset: Asset)
    requires SpendsExisting(s, asset, ins)
    ensures Sum(SpentBy(ins), UtxoValue(s, asset)) == InputSum(s, ins)
    decreases |ins|
  {
    if ins != [] {
      var pre, last := ins[..|ins| - 1], ins[|ins| - 1];
      assert ins == pre + [last];
      assert last in ins;
      assert forall i <- pre :: i in ins;
      ConsumedSum(s, pre, asset);
      var k := (last.hash, last.index);
      assert k !in SpentBy(pre);
      assert SpentBy(ins) == SpentBy(pre) + {k};
      SumAdd(SpentBy(pre), UtxoValue(s, asset), k);
    }
  }

  /** Outputs of another asset weigh nothing. */
  lemma {:induction false} OtherAsset(s: Store, keys: set<OutPoint>, asset: Asset)
    requires forall k <- keys :: k in s.utxos ==> s.utxos[k].asset != asset
    ensures Sum(keys, UtxoValue(s, asset)) == 0
    decreases |keys|
  {
    if keys != {} {
      var k :| k in keys;
      SumRemove(keys, UtxoValue(s, asset), k);
      OtherAsset(s, keys - {k}, asset);
    }
  }

  ghost function LockedBy(s: Store, h: Hash): set<OutPoint> {
    set k <- s.utxos | s.utxos[k].lock == h
  }

  lemma {:induction false} LockedIsSpent(book: Book, a: State, h: Hash)
    requires Inv(book, a) && h in a.store.finals
    ensures LockedBy(a.store, h) == if book(h).inputs == [Genesis] then {} else SpentBy(book(h).inputs)
  {
    var s, ins := a.store, book(h).inputs;
    forall k
      ensures k in LockedBy(s, h) <==> Spend(k.0, k.1) in ins
    {
      var c := OnUtxo(k.0, k.1);
      assert Claims(book(h), c) ==> Owner(s, c) == h;
      assert Owner(s, c) == h ==> Claims(book(h), c);
    }
    assert forall k :: k in SpentBy(ins) <==> Spend(k.0, k.1) in ins;
  }

  /** A transaction creates what it consumes plus what it issues. */
  lemma {:induction false} ConsumedByOne(book: Book, a: State, h: Hash, asset: Asset)
    requires Inv(book, a) && h in a.store.finals
    ensures Sum(LockedBy(a.store, h), UtxoValue(a.store, asset)) ==
            if book(h).asset == asset then OutputSum(book(h).outputs) - IssuedBy(book(h)) else 0
  {
    var s, tx := a.store, book(h);
    LockedIsSpent(book, a, h);
    if tx.inputs != [Genesis] {
      assert Balanced(s, tx);
      if TypeOf(tx) in {TxMint, TxDeposit} {
        assert SpentBy(tx.inputs) == {};
        assert OutputSum(tx.outputs) == IssuedBy(tx);
      } else if tx.asset == asset {
        ConsumedSum(s, tx.inputs, asset);
      } else {
        OtherAsset(s, SpentBy(tx.inputs), asset);
      }
    }
  }

  // ----- summed over the finalised transactions

  ghost function CreatedIn(s: Store, hs: set<Hash>): set<OutPoint> {
    set k <- s.utxos | k.0 in hs
  }

  ghost function ConsumedIn(s: Store, hs: set<Hash>): set<OutPoint> {
    set k <- s.utxos | s.utxos[k].lock in hs
  }

  lemma {:induction false} CreatedSplit(book: Book, s: Store, hs: set<Hash>, h: Hash, f: OutPoint -> int)
    requires UtxosInv(book, s) && h in hs
    ensures Sum(CreatedIn(s, hs), f) == Sum(CreatedIn(s, hs - {h}), f) + Sum(OutputsOf(s, h, |book(h).outputs|), f)
  {
    var n := |book(h).outputs|;
    assert CreatedIn(s, hs) == CreatedIn(s, hs - {h}) + OutputsOf(s, h, n);
    SumUnion(CreatedIn(s, hs - {h}), OutputsOf(s, h, n), f);
  }

  lemma {:induction false} ConsumedSplit(s: Store, hs: set<Hash>, h: Hash, f: OutPoint -> int)
    requires h in hs
    ensures Sum(ConsumedIn(s, hs), f) == Sum(ConsumedIn(s, hs - {h}), f) + Sum(LockedBy(s, h), f)
  {
    assert ConsumedIn(s, hs) == ConsumedIn(s, hs - {h}) + LockedBy(s, h);
    SumUnion(ConsumedIn(s, hs - {h}), LockedBy(s, h), f);
  }

  lemma {:induction false} CreatedTotal(book: Book, s: Store, hs: set<Hash>, asset: Asset)
    requires UtxosInv(book, s) && hs <= s.finals.Keys
    ensures Sum(CreatedIn(s, hs), UtxoValue(s, asset)) + Sum(hs, WithdrawnValue(book, asset)) ==
            Sum(hs, CreatedValue(book, asset))
    decreases |hs|
  {
    if hs == {} {
      assert CreatedIn(s, hs) == {};
    } else {
      var h :| h in hs;
      var outs := book(h).outputs;
      CreatedTotal(book, s, hs - {h}, asset);
      CreatedByOne(book, s, h, asset, |outs|);
      assert outs[..|outs|] == outs;
      CreatedSplit(book, s, hs, h, UtxoValue(s, asset));
      SumRemove(hs, WithdrawnValue(book, asset), h);
      SumRemove(hs, CreatedValue(book, asset), h);
    }
  }

  lemma {:induction false} ConsumedTotal(book: Book, a: State, hs: set<Hash>, asset: Asset)
    requires Inv(book, a) && hs <= a.store.finals.Keys
    ensures var s := a.store;
            Sum(ConsumedIn(s, hs), UtxoValue(s, asset)) + Sum(hs, IssuedValue(book, asset)) ==
            Sum(hs, CreatedValue(book, asset))
    decreases |hs|
  {
    if hs == {} {
      assert ConsumedIn(a.store, hs) == {};
    } else {
      var h :| h in hs;
      ConsumedTotal(book, a, hs - {h}, asset);
      ConsumedByOne(book, a, h, asset);
      ConsumedSplit(a.store, hs, h, UtxoValue(a.store, asset));
      SumRemove(hs, IssuedValue(book, asset), h);
      SumRemove(hs, CreatedValue(book, asset), h);
    }
  }

  /** In every reachable state, for every asset: what can still be spent plus what has been
      withdrawn is what genesis, mints and deposits have issued. */
  lemma {:induction false} SupplyIsConserved(book: Book, ops: seq<Op>, asset: Asset)
    ensures var s := Execs(book, ops).store;
            Supply(s, asset) + Withdrawn(book, s, asset) == Issued(book, s, asset)
  {
    RunKeeps(book, ops);
    var a := Execs(book, ops);
    var s, hs, f := a.store, a.store.finals.Keys, UtxoValue(a.store, asset);
    CreatedTotal(book, s, hs, asset);
    ConsumedTotal(book, a, hs, asset);
    SumUnion(Unspent(s), ConsumedIn(s, hs), f);
    assert CreatedIn(s, hs) == Unspent(s) + ConsumedIn(s, hs);
  }
}
