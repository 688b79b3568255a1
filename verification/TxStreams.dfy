/** The encoder and decoder as the code runs them: a buffer that grows, a cursor that moves. */
module TxStreams {
  import opened Digits
  import opened TxCodec

  /** Every method appends the bytes of its argument.  `rest` stands for whatever will follow: the
      buffer before it equals the buffer from before the call with the argument put in front. */
  class Encoder {
    var buf: Bytes

    constructor ()
      ensures buf == []
    {
      buf := [];
    }

    method Write(b: Bytes, ghost rest: Bytes)
      modifies this
      ensures buf + rest == old(buf) + (b + rest)
    {
      buf := buf + b;
    }

    method WriteInt(n: nat, ghost rest: Bytes)
      requires n <= MAX_INT
      modifies this
      ensures buf + rest == old(buf) + PutInt(n, rest)
    {
      Write(Fixed(n, 256, 2), rest);
    }

    method WriteBlob(b: Bytes, ghost rest: Bytes)
      requires FitsBlob(b)
      modifies this
      ensures buf + rest == old(buf) + PutBlob(b, rest)
    {
      WriteInt(|b|, b + rest);
      Write(b, rest);
    }

    method WriteU64(n: U64, ghost rest: Bytes)
      modifies this
      ensures buf + rest == old(buf) + PutU64(n, rest)
    {
      Write(Fixed(n, 256, 8), rest);
    }

    method WriteInteger(n: nat, ghost rest: Bytes)
      requires FitsInteger(n)
      modifies this
      ensures buf + rest == old(buf) + PutInteger(n, rest)
    {
      WriteBlob(Canonical(n, 256), rest);
    }

    method EncodeDeposit(d: Option<Deposit>, ghost rest: Bytes)
      requires d.Some? ==> FitsDeposit(d.value)
      modifies this
      ensures buf + rest == old(buf) + PutDeposit(d, rest)
    {
      if d.None? {
        Write(NULL, rest);
        return;
      }
      ghost var r4 := PutInteger(d.value.amount, rest);
      ghost var r3 := PutU64(d.value.index, r4);
      ghost var r2 := PutBlob(d.value.hash, r3);
      ghost var r1 := PutBlob(d.value.assetKey, r2);
      Write(MAGIC, PutHash(d.value.chain, r1));
      Write(d.value.chain, r1);
      WriteBlob(d.value.assetKey, r2);
      WriteBlob(d.value.hash, r3);
      WriteU64(d.value.index, r4);
      WriteInteger(d.value.amount, rest);
    }

    method EncodeMint(m: Option<Mint>, ghost rest: Bytes)
      requires m.Some? ==> FitsMint(m.value)
      modifies this
      ensures buf + rest == old(buf) + PutMint(m, rest)
    {
      if m.None? {
        Write(NULL, rest);
        return;
      }
      ghost var r2 := PutInteger(m.value.amount, rest);
      ghost var r1 := PutU64(m.value.batch, r2);
      Write(MAGIC, PutBlob(m.value.group, r1));
      WriteBlob(m.value.group, r1);
      WriteU64(m.value.batch, r2);
      WriteInteger(m.value.amount, rest);
    }

    method EncodeInput(i: Input, ghost rest: Bytes)
      requires FitsInput(i)
      modifies this
      ensures buf + rest == old(buf) + PutInput(i, rest)
    {
      ghost var r3 := PutMint(i.mint, rest);
      ghost var r2 := PutDeposit(i.deposit, r3);
      ghost var r1 := PutBlob(i.genesis, r2);
      Write(i.hash, PutInt(i.index, r1));
      WriteInt(i.index, r1);
      WriteBlob(i.genesis, r2);
      EncodeDeposit(i.deposit, r3);
      EncodeMint(i.mint, rest);
    }

    method WriteHashes(hs: seq<Hash32>, ghost rest: Bytes)
      requires |hs| <= MAX_INT
      modifies this
      ensures buf + rest == old(buf) + PutList(hs, PutHash, rest)
    {
      WriteInt(|hs|, PutMany(hs, PutHash, rest));
      for n := 0 to |hs|
        invariant buf + PutMany(hs[n..], PutHash, rest) == old(buf) + PutList(hs, PutHash, rest)
      {
        assert hs[n..][1..] == hs[n + 1..];
        Write(hs[n], PutMany(hs[n + 1..], PutHash, rest));
      }
    }

    method EncodeWithdrawal(w: Option<Withdrawal>, ghost rest: Bytes)
      requires w.Some? ==> FitsBlob(w.value.assetKey) && FitsBlob(w.value.address) && FitsBlob(w.value.tag)
      modifies this
      ensures buf + rest == old(buf) + PutWithdrawal(w, rest)
    {
      if w.None? {
        Write(NULL, rest);
        return;
      }
      ghost var r3 := PutBlob(w.value.tag, rest);
      ghost var r2 := PutBlob(w.value.address, r3);
      ghost var r1 := PutBlob(w.value.assetKey, r2);
      Write(MAGIC, PutHash(w.value.chain, r1));
      Write(w.value.chain, r1);
      WriteBlob(w.value.assetKey, r2);
      WriteBlob(w.value.address, r3);
      WriteBlob(w.value.tag, rest);
    }

    method EncodeOutput(o: Output, ghost rest: Bytes)
      requires FitsOutput(o)
      modifies this
      ensures buf + rest == old(buf) + PutOutput(o, rest)
    {
      ghost var r4 := PutWithdrawal(o.withdrawal, rest);
      ghost var r3 := PutBlob(o.script, r4);
      ghost var r2 := PutHash(o.mask, r3);
      ghost var r1 := PutList(o.keys, PutHash, r2);
      Write([0, o.typ], PutInteger(o.amount, r1));
      WriteInteger(o.amount, r1);
      WriteHashes(o.keys, r2);
      Write(o.mask, r3);
      WriteBlob(o.script, r4);
      EncodeWithdrawal(o.withdrawal, rest);
    }

    method EncodeInputs(xs: seq<Input>, ghost rest: Bytes)
      requires |xs| <= MAX_INT && forall i | 0 <= i < |xs| :: FitsInput(xs[i])
      modifies this
      ensures buf + rest == old(buf) + PutList(xs, PutInput, rest)
    {
      WriteInt(|xs|, PutMany(xs, PutInput, rest));
      for n := 0 to |xs|
        invariant buf + PutMany(xs[n..], PutInput, rest) == old(buf) + PutList(xs, PutInput, rest)
      {
        assert xs[n..][1..] == xs[n + 1..];
        EncodeInput(xs[n], PutMany(xs[n + 1..], PutInput, rest));
      }
    }

    method EncodeOutputs(xs: seq<Output>, ghost rest: Bytes)
      requires |xs| <= MAX_INT && forall i | 0 <= i < |xs| :: FitsOutput(xs[i])
      modifies this
      ensures buf + rest == old(buf) + PutList(xs, PutOutput, rest)
    {
      WriteInt(|xs|, PutMany(xs, PutOutput, rest));
      for n := 0 to |xs|
        invariant buf + PutMany(xs[n..], PutOutput, rest) == old(buf) + PutList(xs, PutOutput, rest)
      {
        assert xs[n..][1..] == xs[n + 1..];
        EncodeOutput(xs[n], PutMany(xs[n + 1..], PutOutput, rest));
      }
    }

    /** The entries are listed from the map in any order and sorted before they are written. */
    method EncodeSignatures(sm: Sigs, ghost rest: Bytes)
      requires FitsEntries(sm)
      modifies this
      ensures buf + rest == old(buf) + PutEntries(sm, rest)
    {
      var es := ListSignatures(sm);
      EntriesAre(sm);
      WriteInt(|es|, PutMany(es, PutEntry, rest));
      for n := 0 to |es|
        invariant buf + PutMany(es[n..], PutEntry, rest) == old(buf) + PutEntries(sm, rest)
      {
        assert es[n..][1..] == es[n + 1..] && es[n] in es;
        ghost var after := PutMany(es[n + 1..], PutEntry, rest);
        WriteInt(es[n].index, es[n].sig + after);
        Write(es[n].sig, after);
      }
    }

    method EncodeSparse(xs: seq<nat>, ghost rest: Bytes)
      requires |xs| <= MAX_INT && forall i | 0 <= i < |xs| :: xs[i] <= MAX_INT
      modifies this
      ensures buf + rest == old(buf) + PutList(xs, PutInt, rest)
    {
      WriteInt(|xs|, PutMany(xs, PutInt, rest));
      for n := 0 to |xs|
        invariant buf + PutMany(xs[n..], PutInt, rest) == old(buf) + PutList(xs, PutInt, rest)
      {
        assert xs[n..][1..] == xs[n + 1..];
        WriteInt(xs[n], PutMany(xs[n + 1..], PutInt, rest));
      }
    }

    /** The mask in the shorter of its two forms. */
    method EncodeSigners(signers: seq<nat>, ghost rest: Bytes)
      requires FitsSigners(signers)
      modifies this
      ensures buf + rest == old(buf) + PutSigners(signers, rest)
    {
      if |signers| == 0 {
        Write([0], PutBlob([], rest));
        WriteInt(0, rest);
        assert [] + rest == rest && Masks([], 0) == [];
        return;
      }
      var max := signers[|signers| - 1];
      if max / 8 + 1 > |signers| * 2 {
        Write([1], PutList(signers, PutInt, rest));
        EncodeSparse(signers, rest);
        return;
      }
      BelowMax(signers);
      var masks := BuildMasks(signers, max / 8 + 1);
      Write([0], PutBlob(masks, rest));
      WriteBlob(masks, rest);
    }

    method EncodeAggregatedSignature(a: Aggregated, ghost rest: Bytes)
      requires FitsAggregated(a)
      modifies this
      ensures buf + rest == old(buf) + PutAggregated(a, rest)
    {
      ghost var signers := PutSigners(a.signers, rest);
      WriteInt(MAX_INT, PutInt(AGGREGATED_PREFIX, a.sig + signers));
      WriteInt(AGGREGATED_PREFIX, a.sig + signers);
      Write(a.sig, signers);
      EncodeSigners(a.signers, rest);
    }

    method EncodeSignatureMaps(xs: seq<Sigs>, ghost rest: Bytes)
      requires |xs| < MAX_INT && forall i | 0 <= i < |xs| :: FitsEntries(xs[i])
      modifies this
      ensures buf + rest == old(buf) + PutList(xs, PutEntries, rest)
    {
      WriteInt(|xs|, PutMany(xs, PutEntries, rest));
      for n := 0 to |xs|
        invariant buf + PutMany(xs[n..], PutEntries, rest) == old(buf) + PutList(xs, PutEntries, rest)
      {
        assert xs[n..][1..] == xs[n + 1..];
        EncodeSignatures(xs[n], PutMany(xs[n + 1..], PutEntries, rest));
      }
    }

    method EncodeExtra(tx: Tx, ghost rest: Bytes)
      requires Fits(tx)
      modifies this
      ensures buf + rest == old(buf) + PutExtra(tx, rest)
    {
      if tx.version >= REFERENCES_VERSION {
        ghost var extra := tx.extra + rest;
        WriteHashes(tx.references, Fixed(|tx.extra|, 256, 4) + extra);
        Write(Fixed(|tx.extra|, 256, 4), extra);
        Write(tx.extra, rest);
      } else {
        WriteBlob(tx.extra, rest);
      }
    }

    /** The whole transaction, into an empty buffer. */
    method EncodeTransaction(tx: Tx)
      requires buf == [] && Fits(tx)
      modifies this
      ensures Encode(tx) == Some(buf)
      ensures Coherent(tx) ==> Decode(buf) == Some(tx)
    {
      ghost var r4 := PutSignatures(tx, []);
      ghost var r3 := PutExtra(tx, r4);
      ghost var r2 := PutList(tx.outputs, PutOutput, r3);
      ghost var r1 := PutList(tx.inputs, PutInput, r2);
      ghost var r0 := PutHash(tx.asset, r1);
      Write(MAGIC, [0, tx.version] + r0);
      Write([0, tx.version], r0);
      Write(tx.asset, r1);
      EncodeInputs(tx.inputs, r2);
      EncodeOutputs(tx.outputs, r3);
      EncodeExtra(tx, r4);
      if tx.aggregated.Some? {
        EncodeAggregatedSignature(tx.aggregated.value, []);
      } else {
        EncodeSignatureMaps(tx.signatures, []);
      }
      assert buf + [] == buf && [] + PutTx(tx) == PutTx(tx);
      if Coherent(tx) {
        RoundTrip(tx);
      }
    }
  }

  lemma {:induction false} BelowMax(signers: seq<nat>)
    requires signers != [] && forall i | 0 < i < |signers| :: signers[i - 1] < signers[i]
    ensures forall i | 0 <= i < |signers| :: signers[i] / 8 < signers[|signers| - 1] / 8 + 1
  {
    forall i | 0 <= i < |signers|
      ensures signers[i] <= signers[|signers| - 1]
    {
      if i < |signers| - 1 {
        StepsIncrease(signers, i, |signers| - 1);
      }
    }
  }

  // ----- mask bytes, bit by bit

  /** Exclusive or with the bit `1 << j`. */
  function Flip(b: nat, j: nat): nat {
    if j == 0 then Join(b % 2 != 1, b / 2) else Join(b % 2 == 1, Flip(b / 2, j - 1))
  }

  lemma {:induction false} FlipJoin(low: bool, high: nat, j: nat)
    ensures Flip(Join(low, high), j) == if j == 0 then Join(!low, high) else Join(low, Flip(high, j - 1))
  {
    assert Join(low, high) / 2 == high;
  }

  lemma {:induction false} OtherByte(signers: seq<nat>, m: nat, base: nat, k: nat)
    requires k <= 8 && (m < base + k || base + 8 <= m)
    ensures MaskFrom(signers + [m], base, k) == MaskFrom(signers, base, k)
    decreases 8 - k
  {
    if k < 8 {
      OtherByte(signers, m, base, k + 1);
    }
  }

  /** Flipping bit `j` of a byte whose lowest bit and the rest are known. */
  lemma {:induction false} FlipParts(low: bool, high: nat, j: nat, low': bool, high': nat)
    requires if j == 0 then low' == !low && high' == high else low' == low && high' == Flip(high, j - 1)
    ensures Flip(Join(low, high), j) == Join(low', high')
  {
    FlipJoin(low, high, j);
  }

  lemma {:induction false} OwnByte(signers: seq<nat>, marked: seq<nat>, m: nat, base: nat, k: nat, j: nat)
    requires m == base + k + j && k + j < 8 && m !in signers && marked == signers + [m]
    ensures MaskFrom(marked, base, k) == Flip(MaskFrom(signers, base, k), j)
    decreases j
  {
    assert base + k in marked <==> base + k in signers || base + k == m;
    if j == 0 {
      OtherByte(signers, m, base, k + 1);
    } else {
      OwnByte(signers, marked, m, base, k + 1, j - 1);
    }
    FlipParts(base + k in signers, MaskFrom(signers, base, k + 1), j,
              base + k in marked, MaskFrom(marked, base, k + 1));
  }

  /** Flipping the bit of a new signer in its byte marks exactly that signer. */
  lemma {:induction false} MarkSigner(signers: seq<nat>, m: nat, i: nat)
    requires m !in signers
    ensures MaskByte(signers + [m], i) == if i == m / 8 then Flip(MaskByte(signers, i), m % 8) else MaskByte(signers, i)
  {
    if i == m / 8 {
      OwnByte(signers, signers + [m], m, 8 * i, 0, m % 8);
    } else {
      OtherByte(signers, m, 8 * i, 0);
    }
  }

  /** The masks, in place: each signer flips its bit. */
  method BuildMasks(signers: seq<nat>, n: nat) returns (masks: Bytes)
    requires (forall i | 0 < i < |signers| :: signers[i - 1] < signers[i]) &&
             forall i | 0 <= i < |signers| :: signers[i] / 8 < n
    ensures masks == Masks(signers, n)
  {
    var a := new nat[n](i => 0);
    forall i | 0 <= i < n ensures MaskByte(signers[..0], i) == 0 { NoneMarked(i * 8, 0); }
    for k := 0 to |signers|
      invariant forall i | 0 <= i < n :: a[i] == MaskByte(signers[..k], i)
    {
      var m := signers[k];
      MarkNext(signers, k, n);
      a[m / 8] := Flip(a[m / 8], m % 8);
    }
    assert signers[..|signers|] == signers;
    masks := a[..];
  }

  lemma {:induction false} NoneMarked(base: nat, k: nat)
    requires k <= 8
    ensures MaskFrom([], base, k) == 0
    decreases 8 - k
  {
    if k < 8 {
      NoneMarked(base, k + 1);
    }
  }

  lemma {:induction false} MarkNext(signers: seq<nat>, k: nat, n: nat)
    requires k < |signers| && forall i | 0 < i < |signers| :: signers[i - 1] < signers[i]
    ensures var m := signers[k];
            forall i | 0 <= i < n ::
              MaskByte(signers[..k + 1], i) ==
              if i == m / 8 then Flip(MaskByte(signers[..k], i), m % 8) else MaskByte(signers[..k], i)
  {
    var m := signers[k];
    assert signers[..k + 1] == signers[..k] + [m];
    forall j | 0 <= j < k
      ensures signers[j] != m
    {
      StepsIncrease(signers, j, k);
    }
    forall i | 0 <= i < n
      ensures MaskByte(signers[..k + 1], i) ==
              if i == m / 8 then Flip(MaskByte(signers[..k], i), m % 8) else MaskByte(signers[..k], i)
    {
      MarkSigner(signers[..k], m, i);
    }
  }

  /** A read that gets what the specification gets and leaves what it leaves. */
  ghost predicate Took<T>(d: Dec<T>, r: Option<T>, left: Bytes) {
    r.Some? == d.Got? && (d.Got? ==> r.value == d.value && left == d.rest)
  }

  /** What is left of reading `n` items after some have been read. */
  ghost predicate Going<T(!new)>(n: nat, read: Bytes -> Dec<T>, start: Bytes, got: seq<T>, left: Bytes)
  {
    |got| <= n && ReadMany(n, read, start) ==
      var d := ReadMany(n - |got|, read, left);
      if d.Fail? then Fail else Got(got + d.value, d.rest)
  }

  lemma {:induction false} GoingStart<T(!new)>(n: nat, read: Bytes -> Dec<T>, start: Bytes)
    ensures Going(n, read, start, [], start)
  {
    var d := ReadMany(n, read, start);
    assert d.Got? ==> [] + d.value == d.value;
  }

  lemma {:induction false} GoingStep<T(!new)>(n: nat, read: Bytes -> Dec<T>, start: Bytes, got: seq<T>, left: Bytes)
    requires Going(n, read, start, got, left) && |got| < n
    ensures read(left).Fail? ==> ReadMany(n, read, start).Fail?
    ensures read(left).Got? ==> Going(n, read, start, got + [read(left).value], read(left).rest)
  {
    if read(left).Got? {
      var d := ReadMany(n - |got| - 1, read, read(left).rest);
      assert d.Got? ==> got + ([read(left).value] + d.value) == (got + [read(left).value]) + d.value;
    }
  }

  lemma {:induction false} GoingEnd<T(!new)>(n: nat, read: Bytes -> Dec<T>, start: Bytes, got: seq<T>, left: Bytes)
    requires Going(n, read, start, got, left) && |got| == n
    ensures ReadMany(n, read, start) == Got(got, left)
  {
    assert got + [] == got;
  }

  /** The cursor: the bytes not read yet. */
  class Decoder {
    var buf: Bytes

    constructor (b: Bytes)
      ensures buf == b
    {
      buf := b;
    }

    method Read(n: nat) returns (r: Option<Bytes>)
      modifies this
      ensures Took(TxCodec.Read(n, old(buf)), r, buf)
    {
      if buf == [] || |buf| < n {
        return None;
      }
      r := Some(buf[..n]);
      buf := buf[n..];
    }

    method ReadUint(k: nat) returns (r: Option<nat>)
      modifies this
      ensures Took(TxCodec.ReadUint(k, old(buf)), r, buf)
    {
      var b := Read(k);
      return if b.None? then None else Some(Value(b.value, 256));
    }

    method ReadInteger() returns (r: Option<nat>)
      modifies this
      ensures Took(TxCodec.ReadInteger(old(buf)), r, buf)
    {
      var l := ReadUint(2);
      if l.None? {
        return None;
      }
      r := ReadUint(l.value);
    }

    method ReadBlob() returns (r: Option<Bytes>)
      modifies this
      ensures Took(TxCodec.ReadBlob(old(buf)), r, buf)
    {
      var l := ReadUint(2);
      if l.None? {
        return None;
      }
      if l.value == 0 {
        return Some([]);
      }
      r := Read(l.value);
    }

    method ReadHash() returns (r: Option<Hash32>)
      modifies this
      ensures Took(TxCodec.ReadHash(old(buf)), r, buf)
    {
      var b := Read(32);
      return if b.None? then None else Some(b.value);
    }

    method ReadMagic() returns (r: Option<bool>)
      modifies this
      ensures Took(TxCodec.ReadMagic(old(buf)), r, buf)
    {
      var b := Read(2);
      if b.None? {
        return None;
      }
      return if b.value == MAGIC then Some(true) else if b.value == NULL then Some(false) else None;
    }

    method ReadDeposit() returns (r: Option<Option<Deposit>>)
      modifies this
      ensures Took(TxCodec.ReadDeposit(old(buf)), r, buf)
    {
      var some := ReadMagic();
      if some.None? { return None; }
      if !some.value { return Some(None); }
      var chain := ReadHash();
      if chain.None? { return None; }
      var key := ReadBlob();
      if key.None? { return None; }
      var hash := ReadBlob();
      if hash.None? { return None; }
      var index := ReadUint(8);
      if index.None? || index.value >= 0x10000000000000000 { return None; }
      var amount := ReadInteger();
      if amount.None? { return None; }
      return Some(Some(Deposit(chain.value, key.value, hash.value, index.value, amount.value)));
    }

    method ReadMint() returns (r: Option<Option<Mint>>)
      modifies this
      ensures Took(TxCodec.ReadMint(old(buf)), r, buf)
    {
      var some := ReadMagic();
      if some.None? { return None; }
      if !some.value { return Some(None); }
      var group := ReadBlob();
      if group.None? { return None; }
      var batch := ReadUint(8);
      if batch.None? || batch.value >= 0x10000000000000000 { return None; }
      var amount := ReadInteger();
      if amount.None? { return None; }
      return Some(Some(Mint(group.value, batch.value, amount.value)));
    }

    method ReadInput() returns (r: Option<Input>)
      modifies this
      ensures Took(TxCodec.ReadInput(old(buf)), r, buf)
    {
      var hash := ReadHash();
      if hash.None? { return None; }
      var index := ReadUint(2);
      if index.None? { return None; }
      var genesis := ReadBlob();
      if genesis.None? { return None; }
      var deposit := ReadDeposit();
      if deposit.None? { return None; }
      var mint := ReadMint();
      if mint.None? { return None; }
      return Some(Input(hash.value, index.value, genesis.value, deposit.value, mint.value));
    }

    method ReadWithdrawal() returns (r: Option<Option<Withdrawal>>)
      modifies this
      ensures Took(TxCodec.ReadWithdrawal(old(buf)), r, buf)
    {
      var some := ReadMagic();
      if some.None? { return None; }
      if !some.value { return Some(None); }
      var chain := ReadHash();
      if chain.None? { return None; }
      var key := ReadBlob();
      if key.None? { return None; }
      var address := ReadBlob();
      if address.None? { return None; }
      var tag := ReadBlob();
      if tag.None? { return None; }
      return Some(Some(Withdrawal(chain.value, key.value, address.value, tag.value)));
    }

    method ReadOutput() returns (r: Option<Output>)
      modifies this
      ensures Took(TxCodec.ReadOutput(old(buf)), r, buf)
    {
      var t := Read(2);
      if t.None? || t.value[0] != 0 { return None; }
      var amount := ReadInteger();
      if amount.None? { return None; }
      var keys := ReadHashes();
      if keys.None? { return None; }
      var mask := ReadHash();
      if mask.None? { return None; }
      var script := ReadBlob();
      if script.None? { return None; }
      var withdrawal := ReadWithdrawal();
      if withdrawal.None? { return None; }
      return Some(Output(t.value[1], amount.value, keys.value, mask.value, script.value, withdrawal.value));
    }

    method ReadManyHashes(n: nat) returns (r: Option<seq<Hash32>>)
      modifies this
      ensures Took(ReadMany(n, TxCodec.ReadHash, old(buf)), r, buf)
    {
      var xs: seq<Hash32> := [];
      GoingStart(n, TxCodec.ReadHash, buf);
      for i := 0 to n
        invariant |xs| == i && Going(n, TxCodec.ReadHash, old(buf), xs, buf)
      {
        GoingStep(n, TxCodec.ReadHash, old(buf), xs, buf);
        var x := ReadHash();
        if x.None? { return None; }
        xs := xs + [x.value];
      }
      GoingEnd(n, TxCodec.ReadHash, old(buf), xs, buf);
      return Some(xs);
    }

    method ReadHashes() returns (r: Option<seq<Hash32>>)
      modifies this
      ensures Took(ReadList(TxCodec.ReadHash, old(buf)), r, buf)
    {
      var n := ReadUint(2);
      if n.None? { return None; }
      r := ReadManyHashes(n.value);
    }

    method ReadManyInputs(n: nat) returns (r: Option<seq<Input>>)
      modifies this
      ensures Took(ReadMany(n, TxCodec.ReadInput, old(buf)), r, buf)
    {
      var xs: seq<Input> := [];
      GoingStart(n, TxCodec.ReadInput, buf);
      for i := 0 to n
        invariant |xs| == i && Going(n, TxCodec.ReadInput, old(buf), xs, buf)
      {
        GoingStep(n, TxCodec.ReadInput, old(buf), xs, buf);
        var x := ReadInput();
        if x.None? { return None; }
        xs := xs + [x.value];
      }
      GoingEnd(n, TxCodec.ReadInput, old(buf), xs, buf);
      return Some(xs);
    }

    method ReadInputs() returns (r: Option<seq<Input>>)
      modifies this
      ensures Took(ReadList(TxCodec.ReadInput, old(buf)), r, buf)
    {
      var n := ReadUint(2);
      if n.None? { return None; }
      r := ReadManyInputs(n.value);
    }

    method ReadManyOutputs(n: nat) returns (r: Option<seq<Output>>)
      modifies this
      ensures Took(ReadMany(n, TxCodec.ReadOutput, old(buf)), r, buf)
    {
      var xs: seq<Output> := [];
      GoingStart(n, TxCodec.ReadOutput, buf);
      for i := 0 to n
        invariant |xs| == i && Going(n, TxCodec.ReadOutput, old(buf), xs, buf)
      {
        GoingStep(n, TxCodec.ReadOutput, old(buf), xs, buf);
        var x := ReadOutput();
        if x.None? { return None; }
        xs := xs + [x.value];
      }
      GoingEnd(n, TxCodec.ReadOutput, old(buf), xs, buf);
      return Some(xs);
    }

    method ReadOutputs() returns (r: Option<seq<Output>>)
      modifies this
      ensures Took(ReadList(TxCodec.ReadOutput, old(buf)), r, buf)
    {
      var n := ReadUint(2);
      if n.None? { return None; }
      r := ReadManyOutputs(n.value);
    }

    method ReadManyInts(n: nat) returns (r: Option<seq<nat>>)
      modifies this
      ensures Took(ReadMany(n, TxCodec.ReadInt, old(buf)), r, buf)
    {
      var xs: seq<nat> := [];
      GoingStart(n, TxCodec.ReadInt, buf);
      for i := 0 to n
        invariant |xs| == i && Going(n, TxCodec.ReadInt, old(buf), xs, buf)
      {
        GoingStep(n, TxCodec.ReadInt, old(buf), xs, buf);
        var x := ReadUint(2);
        if x.None? { return None; }
        xs := xs + [x.value];
      }
      GoingEnd(n, TxCodec.ReadInt, old(buf), xs, buf);
      return Some(xs);
    }

    method ReadEntry() returns (r: Option<Entry>)
      modifies this
      ensures Took(TxCodec.ReadEntry(old(buf)), r, buf)
    {
      var index := ReadUint(2);
      if index.None? { return None; }
      var sig := Read(64);
      if sig.None? { return None; }
      return Some(Entry(index.value, sig.value));
    }

    method ReadManyEntries(n: nat) returns (r: Option<seq<Entry>>)
      modifies this
      ensures Took(ReadMany(n, TxCodec.ReadEntry, old(buf)), r, buf)
    {
      var xs: seq<Entry> := [];
      GoingStart(n, TxCodec.ReadEntry, buf);
      for i := 0 to n
        invariant |xs| == i && Going(n, TxCodec.ReadEntry, old(buf), xs, buf)
      {
        GoingStep(n, TxCodec.ReadEntry, old(buf), xs, buf);
        var x := ReadEntry();
        if x.None? { return None; }
        xs := xs + [x.value];
      }
      GoingEnd(n, TxCodec.ReadEntry, old(buf), xs, buf);
      return Some(xs);
    }

    /** Entries go into the map one by one; a repeated index shows in the count. */
    method ReadEntries() returns (r: Option<Sigs>)
      modifies this
      ensures Took(TxCodec.ReadEntries(old(buf)), r, buf)
    {
      var n := ReadUint(2);
      if n.None? { return None; }
      var es := ReadManyEntries(n.value);
      if es.None? { return None; }
      var m: Sigs := map[];
      for i := 0 to |es.value|
        invariant m == AsMap(es.value[..i])
      {
        assert es.value[..i + 1][..i] == es.value[..i];
        m := m[es.value[i].index := es.value[i].sig];
      }
      assert es.value[..|es.value|] == es.value;
      if |m| != |es.value| { return None; }
      return Some(m);
    }

    method ReadManyMaps(n: nat) returns (r: Option<seq<Sigs>>)
      modifies this
      ensures Took(ReadMany(n, TxCodec.ReadEntries, old(buf)), r, buf)
    {
      var xs: seq<Sigs> := [];
      GoingStart(n, TxCodec.ReadEntries, buf);
      for i := 0 to n
        invariant |xs| == i && Going(n, TxCodec.ReadEntries, old(buf), xs, buf)
      {
        GoingStep(n, TxCodec.ReadEntries, old(buf), xs, buf);
        var x := ReadEntries();
        if x.None? { return None; }
        xs := xs + [x.value];
      }
      GoingEnd(n, TxCodec.ReadEntries, old(buf), xs, buf);
      return Some(xs);
    }

    /** The mask type, then a list of indexes or bits. */
    method ReadSigners() returns (r: Option<seq<nat>>)
      modifies this
      ensures Took(TxCodec.ReadSigners(old(buf)), r, buf)
    {
      var t := Read(1);
      if t.None? { return None; }
      if t.value[0] == 1 {
        var n := ReadUint(2);
        if n.None? { return None; }
        r := ReadManyInts(n.value);
        return;
      }
      if t.value[0] != 0 { return None; }
      var masks := ReadBlob();
      if masks.None? { return None; }
      var signers := ListBits(masks.value);
      return Some(signers);
    }

    method ReadAggregated() returns (r: Option<Aggregated>)
      modifies this
      ensures Took(TxCodec.ReadAggregated(old(buf)), r, buf)
    {
      var prefix := ReadUint(2);
      if prefix.None? || prefix.value != AGGREGATED_PREFIX { return None; }
      var sig := Read(64);
      if sig.None? { return None; }
      var signers := ReadSigners();
      if signers.None? { return None; }
      return Some(Aggregated(signers.value, sig.value));
    }

    method ReadSignatures() returns (r: Option<(Option<Aggregated>, seq<Sigs>)>)
      modifies this
      ensures Took(TxCodec.ReadSignatures(old(buf)), r, buf)
    {
      var n := ReadUint(2);
      if n.None? { return None; }
      if n.value == MAX_INT {
        var a := ReadAggregated();
        if a.None? { return None; }
        return Some((Some(a.value), []));
      }
      var es := ReadManyMaps(n.value);
      if es.None? { return None; }
      return Some((None, es.value));
    }

    method ReadExtra(version: nat) returns (r: Option<(seq<Hash32>, Bytes)>)
      modifies this
      ensures Took(TxCodec.ReadExtra(version, old(buf)), r, buf)
    {
      if version < REFERENCES_VERSION {
        var extra := ReadBlob();
        if extra.None? { return None; }
        return Some(([], extra.value));
      }
      var refs := ReadHashes();
      if refs.None? { return None; }
      var n := ReadUint(4);
      if n.None? { return None; }
      if n.value == 0 {
        return Some((refs.value, []));
      }
      var extra := Read(n.value);
      if extra.None? { return None; }
      return Some((refs.value, extra.value));
    }

    method ReadBody(version: nat) returns (r: Option<Tx>)
      modifies this
      ensures Took(TxCodec.ReadBody(version, old(buf)), r, buf)
    {
      var asset := ReadHash();
      if asset.None? { return None; }
      var inputs := ReadInputs();
      if inputs.None? { return None; }
      var outputs := ReadOutputs();
      if outputs.None? { return None; }
      var more := ReadExtra(version);
      if more.None? { return None; }
      var sigs := ReadSignatures();
      if sigs.None? || buf != [] { return None; }
      return Some(Tx(version, asset.value, inputs.value, outputs.value, more.value.0, more.value.1, sigs.value.0,
                     sigs.value.1));
    }

    /** The whole buffer as one transaction. */
    method DecodeTransaction() returns (r: Option<Tx>)
      modifies this
      ensures r == Decode(old(buf))
    {
      var m := Read(4);
      if m.None? || m.value[..3] != [0x77, 0x77, 0] || !(2 <= m.value[3] <= 4) { return None; }
      r := ReadBody(m.value[3]);
    }
  }

  /** The entries of a signature map, taken in any order, in the order of their indexes. */
  method ListSignatures(sm: Sigs) returns (es: seq<Entry>)
    ensures es == Entries(sm) && SortedEntries(es) && AsMap(es) == sm
  {
    var left := sm.Keys;
    es := [];
    while left != {}
      invariant left <= sm.Keys && SortedEntries(es) && AsMap(es) == sm - left
      decreases |left|
    {
      var j :| j in left;
      StoreUpdates(es, Entry(j, sm[j]));
      OneListed(sm, left, j);
      es, left := Store(es, Entry(j, sm[j])), left - {j};
    }
    EntriesAre(sm);
    OneListPerMap(es, Entries(sm));
  }

  lemma {:induction false} OneListed(sm: Sigs, left: set<nat>, j: nat)
    requires j in left && left <= sm.Keys
    ensures (sm - left)[j := sm[j]] == sm - (left - {j})
  {
  }

  /** The bits of the masks, byte by byte and bit by bit. */
  method ListBits(masks: Bytes) returns (signers: seq<nat>)
    ensures signers == BitsBelow(masks, 8 * |masks|)
  {
    signers := [];
    for i := 0 to |masks|
      invariant signers == BitsBelow(masks, 8 * i)
    {
      for j := 0 to 8
        invariant signers == BitsBelow(masks, 8 * i + j)
      {
        assert (8 * i + j) / 8 == i && (8 * i + j) % 8 == j;
        if Bit(masks[i], j) {
          signers := signers + [8 * i + j];
        }
      }
    }
  }
}
