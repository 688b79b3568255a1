/** Unmarshalling a transaction: what was decoded is encoded again and compared, and the encoder
    panics on signers it would not have written. */
module TxUnmarshal {
  import opened Digits
  import opened TxCodec
  import TxStreams

  const MAXIMUM_SIZE := 4194304

  predicate Octets(bs: Bytes) { Valid(bs, 256) }

  datatype Outcome = Accepted(tx: Tx) | Refused | Panicked

  function Payload(tx: Tx): Tx { tx.(aggregated := None, signatures := []) }

  /** Both encodings are made before either is compared. */
  function Unmarshal(val: Bytes): Outcome {
    if |val| > MAXIMUM_SIZE || Decode(val).None? then Refused
    else
      var tx := Decode(val).value;
      if Encode(tx).None? || Encode(Payload(tx)).None? then Panicked
      else if Encode(tx) != Some(val) && Encode(Payload(tx)) != Some(val) then Refused
      else Accepted(tx)
  }

  // ----- what is read fits what is written, except for signers

  /** `r` is what a read leaves of `bs`. */
  predicate Tail(r: Bytes, bs: Bytes) { Octets(r) && |r| <= |bs| }

  lemma {:induction false} ReadFits(n: nat, bs: Bytes)
    requires Octets(bs)
    ensures var d := Read(n, bs); d.Got? ==> Octets(d.value) && |d.value| <= |bs| && Tail(d.rest, bs)
  {
  }

  lemma {:induction false} ValueBelow(ds: seq<nat>)
    requires Octets(ds)
    ensures Value(ds, 256) < Pow(256, |ds|)
    decreases |ds|
  {
    if ds != [] {
      ValueBelow(ds[..|ds| - 1]);
    }
  }

  lemma {:induction false} UintFits(k: nat, bs: Bytes)
    requires Octets(bs)
    ensures var d := ReadUint(k, bs); d.Got? ==> d.value < Pow(256, k) && Tail(d.rest, bs)
  {
    ReadFits(k, bs);
    var d := Read(k, bs);
    if d.Got? {
      ValueBelow(d.value);
    }
  }

  lemma {:induction false} IntFits(bs: Bytes)
    requires Octets(bs)
    ensures var d := ReadInt(bs); d.Got? ==> d.value <= MAX_INT && Tail(d.rest, bs)
  {
    Powers();
    UintFits(2, bs);
  }

  lemma {:induction false} BlobFits(bs: Bytes)
    requires Octets(bs)
    ensures var d := ReadBlob(bs); d.Got? ==> FitsBlob(d.value) && |d.value| <= |bs| && Tail(d.rest, bs)
  {
    IntFits(bs);
    var d := ReadInt(bs);
    if d.Got? {
      ReadFits(d.value, d.rest);
    }
  }

  /** A number has no more digits than it was read from. */
  lemma {:induction false} IntegerFits(bs: Bytes)
    requires Octets(bs)
    ensures var d := ReadInteger(bs); d.Got? ==> FitsInteger(d.value) && Tail(d.rest, bs)
  {
    IntFits(bs);
    var l := ReadInt(bs);
    if l.Got? {
      ReadFits(l.value, l.rest);
      var d := Read(l.value, l.rest);
      if d.Got? {
        Decompose(d.value, 256);
        assert |Zeros(Leading(d.value)) + Canonical(Value(d.value, 256), 256)| == |d.value|;
      }
    }
  }

  lemma {:induction false} U64Fits(bs: Bytes)
    requires Octets(bs)
    ensures var d := ReadU64Value(bs); d.Got? ==> Tail(d.rest, bs)
  {
    UintFits(8, bs);
  }

  lemma {:induction false} HashFits(bs: Bytes)
    requires Octets(bs)
    ensures var d := ReadHash(bs); d.Got? ==> Tail(d.rest, bs)
  {
    ReadFits(32, bs);
  }

  lemma {:induction false} MagicFits(bs: Bytes)
    requires Octets(bs)
    ensures var d := ReadMagic(bs); d.Got? ==> Tail(d.rest, bs)
  {
    ReadFits(2, bs);
  }

  lemma {:induction false} DepositFits(bs: Bytes)
    requires Octets(bs)
    ensures var d := ReadDeposit(bs); d.Got? ==> (d.value.Some? ==> FitsDeposit(d.value.value)) && Tail(d.rest, bs)
  {
    MagicFits(bs);
    var m := ReadMagic(bs);
    if m.Got? && m.value {
      HashFits(m.rest);
      var c := ReadHash(m.rest);
      if c.Got? {
        BlobFits(c.rest);
        var k := ReadBlob(c.rest);
        if k.Got? {
          BlobFits(k.rest);
          var h := ReadBlob(k.rest);
          if h.Got? {
            U64Fits(h.rest);
            var i := ReadU64Value(h.rest);
            if i.Got? {
              IntegerFits(i.rest);
            }
          }
        }
      }
    }
  }

  lemma {:induction false} MintFits(bs: Bytes)
    requires Octets(bs)
    ensures var d := ReadMint(bs); d.Got? ==> (d.value.Some? ==> FitsMint(d.value.value)) && Tail(d.rest, bs)
  {
    MagicFits(bs);
    var m := ReadMagic(bs);
    if m.Got? && m.value {
      BlobFits(m.rest);
      var g := ReadBlob(m.rest);
      if g.Got? {
        U64Fits(g.rest);
        var b := ReadU64Value(g.rest);
        if b.Got? {
          IntegerFits(b.rest);
        }
      }
    }
  }

  lemma {:induction false} InputFits(bs: Bytes)
    requires Octets(bs)
    ensures var d := ReadInput(bs); d.Got? ==> FitsInput(d.value) && Tail(d.rest, bs)
  {
    HashFits(bs);
    var h := ReadHash(bs);
    if h.Got? {
      IntFits(h.rest);
      var i := ReadInt(h.rest);
      if i.Got? {
        BlobFits(i.rest);
        var g := ReadBlob(i.rest);
        if g.Got? {
          DepositFits(g.rest);
          var d := ReadDeposit(g.rest);
          if d.Got? {
            MintFits(d.rest);
          }
        }
      }
    }
  }

  lemma {:induction false} WithdrawalFits(bs: Bytes)
    requires Octets(bs)
    ensures var d := ReadWithdrawal(bs);
            d.Got? ==>
              && (d.value.Some? ==>
                    var w := d.value.value; FitsBlob(w.assetKey) && FitsBlob(w.address) && FitsBlob(w.tag))
              && Tail(d.rest, bs)
  {
    MagicFits(bs);
    var m := ReadMagic(bs);
    if m.Got? && m.value {
      HashFits(m.rest);
      var c := ReadHash(m.rest);
      if c.Got? {
        BlobFits(c.rest);
        var k := ReadBlob(c.rest);
        if k.Got? {
          BlobFits(k.rest);
          var a := ReadBlob(k.rest);
          if a.Got? {
            BlobFits(a.rest);
          }
        }
      }
    }
  }

  // ----- lists

  /** Whatever `read` gets from octets satisfies `ok`. */
  ghost predicate Fitting<T(!new)>(read: Bytes -> Dec<T>, ok: T -> bool, bs: Bytes) {
    read(bs).Got? ==> ok(read(bs).value) && Tail(read(bs).rest, bs)
  }

  lemma {:induction false} ManyFit<T(!new)>(n: nat, read: Bytes -> Dec<T>, ok: T -> bool, bs: Bytes)
    requires Octets(bs) && forall b: Bytes | Octets(b) :: Fitting(read, ok, b)
    ensures var d := ReadMany(n, read, bs);
            d.Got? ==> (forall i | 0 <= i < |d.value| :: ok(d.value[i])) && Tail(d.rest, bs)
  {
    if n > 0 {
      assert Fitting(read, ok, bs);
      if read(bs).Got? {
        ManyFit(n - 1, read, ok, read(bs).rest);
      }
    }
  }

  lemma {:induction false} ListFits<T(!new)>(read: Bytes -> Dec<T>, ok: T -> bool, bs: Bytes)
    requires Octets(bs) && forall b: Bytes | Octets(b) :: Fitting(read, ok, b)
    ensures var d := ReadList(read, bs);
            d.Got? ==> |d.value| <= MAX_INT && (forall i | 0 <= i < |d.value| :: ok(d.value[i])) && Tail(d.rest, bs)
  {
    IntFits(bs);
    var n := ReadInt(bs);
    if n.Got? {
      ManyFit(n.value, read, ok, n.rest);
    }
  }

  lemma {:induction false} HashesFit(bs: Bytes)
    requires Octets(bs)
    ensures var d := ReadList(ReadHash, bs); d.Got? ==> |d.value| <= MAX_INT && Tail(d.rest, bs)
  {
    forall b: Bytes | Octets(b) ensures Fitting(ReadHash, (h: Hash32) => true, b) { HashFits(b); }
    ListFits(ReadHash, (h: Hash32) => true, bs);
  }

  lemma {:induction false} InputsFit(bs: Bytes)
    requires Octets(bs)
    ensures var d := ReadList(ReadInput, bs);
            d.Got? ==> |d.value| <= MAX_INT && (forall i | 0 <= i < |d.value| :: FitsInput(d.value[i])) &&
                       Tail(d.rest, bs)
  {
    forall b: Bytes | Octets(b) ensures Fitting(ReadInput, FitsInput, b) { InputFits(b); }
    ListFits(ReadInput, FitsInput, bs);
  }

  lemma {:induction false} OutputFits(bs: Bytes)
    requires Octets(bs)
    ensures var d := ReadOutput(bs); d.Got? ==> FitsOutput(d.value) && Tail(d.rest, bs)
  {
    ReadFits(2, bs);
    var t := Read(2, bs);
    if t.Got? {
      IntegerFits(t.rest);
      var a := ReadInteger(t.rest);
      if a.Got? {
        HashesFit(a.rest);
        var k := ReadList(ReadHash, a.rest);
        if k.Got? {
          HashFits(k.rest);
          var m := ReadHash(k.rest);
          if m.Got? {
            BlobFits(m.rest);
            var s := ReadBlob(m.rest);
            if s.Got? {
              WithdrawalFits(s.rest);
            }
          }
        }
      }
    }
  }

  lemma {:induction false} OutputsFit(bs: Bytes)
    requires Octets(bs)
    ensures var d := ReadList(ReadOutput, bs);
            d.Got? ==> |d.value| <= MAX_INT && (forall i | 0 <= i < |d.value| :: FitsOutput(d.value[i])) &&
                       Tail(d.rest, bs)
  {
    forall b: Bytes | Octets(b) ensures Fitting(ReadOutput, FitsOutput, b) { OutputFits(b); }
    ListFits(ReadOutput, FitsOutput, bs);
  }

  predicate FitsEntry(e: Entry) { e.index <= MAX_INT }

  lemma {:induction false} EntryFits(bs: Bytes)
    requires Octets(bs)
    ensures var d := ReadEntry(bs); d.Got? ==> FitsEntry(d.value) && Tail(d.rest, bs)
  {
    IntFits(bs);
    var i := ReadInt(bs);
    if i.Got? {
      ReadFits(64, i.rest);
    }
  }

  lemma {:induction false} AsMapKeys(es: seq<Entry>)
    requires forall i | 0 <= i < |es| :: FitsEntry(es[i])
    ensures forall k <- AsMap(es) :: k <= MAX_INT
    decreases |es|
  {
    if es != [] {
      AsMapKeys(es[..|es| - 1]);
    }
  }

  lemma {:induction false} EntriesFit(bs: Bytes)
    requires Octets(bs)
    ensures var d := ReadEntries(bs); d.Got? ==> FitsEntries(d.value) && Tail(d.rest, bs)
  {
    forall b: Bytes | Octets(b) ensures Fitting(ReadEntry, FitsEntry, b) { EntryFits(b); }
    ListFits(ReadEntry, FitsEntry, bs);
    var d := ReadList(ReadEntry, bs);
    if d.Got? {
      AsMapKeys(d.value);
    }
  }

  // ----- the parts of a transaction

  lemma {:induction false} ExtraFits(version: nat, bs: Bytes)
    requires Octets(bs)
    ensures var d := ReadExtra(version, bs);
            d.Got? ==>
              && (if version >= REFERENCES_VERSION then |d.value.0| <= MAX_INT && |d.value.1| <= |bs|
                  else d.value.0 == [] && |d.value.1| <= MAX_INT)
              && Tail(d.rest, bs)
  {
    if version >= REFERENCES_VERSION {
      HashesFit(bs);
      var refs := ReadList(ReadHash, bs);
      if refs.Got? {
        UintFits(4, refs.rest);
        var n := ReadUint(4, refs.rest);
        if n.Got? {
          ReadFits(n.value, n.rest);
        }
      }
    } else {
      BlobFits(bs);
    }
  }

  /** Signature maps always fit; an aggregated signature comes alone. */
  lemma {:induction false} SignaturesFit(bs: Bytes)
    requires Octets(bs)
    ensures var d := ReadSignatures(bs);
            d.Got? ==>
              if d.value.0.Some? then d.value.1 == []
              else |d.value.1| < MAX_INT && forall i | 0 <= i < |d.value.1| :: FitsEntries(d.value.1[i])
  {
    IntFits(bs);
    var n := ReadInt(bs);
    if n.Got? && n.value != MAX_INT {
      forall b: Bytes | Octets(b) ensures Fitting(ReadEntries, FitsEntries, b) { EntriesFit(b); }
      ManyFit(n.value, ReadEntries, FitsEntries, n.rest);
    }
  }

  lemma {:induction false} BodyFits(version: nat, bs: Bytes, tx: Tx)
    requires Octets(bs) && |bs| <= MAXIMUM_SIZE && 2 <= version <= 4 && ReadBody(version, bs) == Got(tx, [])
    ensures Fits(tx.(aggregated := None)) && Coherent(tx) && tx.version == version
  {
    HashFits(bs);
    var r1 := ReadHash(bs).rest;
    InputsFit(r1);
    var r2 := ReadList(ReadInput, r1).rest;
    OutputsFit(r2);
    var r3 := ReadList(ReadOutput, r2).rest;
    ExtraFits(version, r3);
    var r4 := ReadExtra(version, r3).rest;
    SignaturesFit(r4);
  }

  lemma {:induction false} DecodedFits(val: Bytes, tx: Tx)
    requires Octets(val) && |val| <= MAXIMUM_SIZE && Decode(val) == Some(tx)
    ensures Fits(tx.(aggregated := None)) && Coherent(tx)
  {
    ReadFits(4, val);
    var m := Read(4, val);
    BodyFits(m.value[3], m.rest, tx);
  }

  // ----- exactly what unmarshalling does

  /** Of what decodes, the encoder panics exactly on signers that do not strictly increase or that
      do not fit an integer of the encoding.  The payload always encodes. */
  lemma {:induction false} EncodesIff(val: Bytes, tx: Tx)
    requires Octets(val) && |val| <= MAXIMUM_SIZE && Decode(val) == Some(tx)
    ensures Encode(tx).Some? <==> (tx.aggregated.Some? ==> FitsSigners(tx.aggregated.value.signers))
    ensures Encode(Payload(tx)).Some?
  {
    DecodedFits(val, tx);
    SignersDecide(tx);
  }

  lemma {:induction false} SignersDecide(tx: Tx)
    requires Fits(tx.(aggregated := None)) && Coherent(tx)
    ensures Fits(tx) <==> (tx.aggregated.Some? ==> FitsSigners(tx.aggregated.value.signers))
    ensures Fits(Payload(tx))
  {
  }

  lemma {:induction false} PanicsIff(val: Bytes)
    requires Octets(val)
    ensures Unmarshal(val).Panicked? <==>
            && |val| <= MAXIMUM_SIZE && Decode(val).Some? && Decode(val).value.aggregated.Some?
            && !FitsSigners(Decode(val).value.aggregated.value.signers)
  {
    if |val| <= MAXIMUM_SIZE && Decode(val).Some? {
      EncodesIff(val, Decode(val).value);
    }
  }

  /** Of what decodes, the comparison with the payload's encoding accepts nothing that the
      comparison with the full encoding does not accept. */
  lemma {:induction false} PayloadAcceptsNoMore(val: Bytes, tx: Tx)
    requires Octets(val) && |val| <= MAXIMUM_SIZE && Decode(val) == Some(tx) && Encode(Payload(tx)) == Some(val)
    ensures Encode(tx) == Some(val) && tx == Payload(tx)
  {
    DecodedFits(val, tx);
    RoundTrip(Payload(tx));
  }

  /** What is accepted is exactly what encodes to the input. */
  lemma {:induction false} AcceptsIff(val: Bytes, tx: Tx)
    requires Octets(val)
    ensures Unmarshal(val) == Accepted(tx) <==> |val| <= MAXIMUM_SIZE && Coherent(tx) && Encode(tx) == Some(val)
  {
    if Unmarshal(val) == Accepted(tx) {
      AcceptedEncodes(val, tx);
    }
    if |val| <= MAXIMUM_SIZE && Coherent(tx) && Encode(tx) == Some(val) {
      EncodedIsAccepted(val, tx);
    }
  }

  lemma {:induction false} AcceptedEncodes(val: Bytes, tx: Tx)
    requires Octets(val) && Unmarshal(val) == Accepted(tx)
    ensures |val| <= MAXIMUM_SIZE && Coherent(tx) && Encode(tx) == Some(val)
  {
    DecodedFits(val, tx);
    if Encode(Payload(tx)) == Some(val) {
      PayloadAcceptsNoMore(val, tx);
    }
  }

  lemma {:induction false} EncodedIsAccepted(val: Bytes, tx: Tx)
    requires Octets(val) && |val| <= MAXIMUM_SIZE && Coherent(tx) && Encode(tx) == Some(val)
    ensures Unmarshal(val) == Accepted(tx)
  {
    RoundTrip(tx);
    EncodesIff(val, tx);
    Compared(val, tx);
  }

  lemma {:induction false} Compared(val: Bytes, tx: Tx)
    requires |val| <= MAXIMUM_SIZE && Decode(val) == Some(tx) && Encode(tx).Some? && Encode(Payload(tx)).Some?
    ensures Unmarshal(val) ==
            if Encode(tx) != Some(val) && Encode(Payload(tx)) != Some(val) then Refused else Accepted(tx)
  {
  }

  // ----- which masks list signers the encoder refuses

  lemma {:induction false} BitsListed(masks: Bytes, k: nat)
    requires k <= 8 * |masks|
    ensures forall j: nat :: j in BitsBelow(masks, k) <==> j < k && Bit(masks[j / 8], j % 8)
    ensures forall i | 0 < i < |BitsBelow(masks, k)| :: BitsBelow(masks, k)[i - 1] < BitsBelow(masks, k)[i]
  {
    if k > 0 {
      BitsListed(masks, k - 1);
      var init := BitsBelow(masks, k - 1);
      assert init != [] ==> init[|init| - 1] in init;
    }
  }

  /** Signers read from an ordinary mask are in order; they fit unless a bit beyond the largest
      integer is set. */
  lemma {:induction false} OrdinaryFitsIff(masks: Bytes)
    ensures var signers := BitsBelow(masks, 8 * |masks|);
            FitsSigners(signers) <==> forall k: nat | MAX_INT < k < 8 * |masks| :: !Bit(masks[k / 8], k % 8)
  {
    var signers := BitsBelow(masks, 8 * |masks|);
    BitsListed(masks, 8 * |masks|);
    forall k: nat | MAX_INT < k < 8 * |masks| && Bit(masks[k / 8], k % 8)
      ensures !FitsSigners(signers)
    {
      assert k in signers;
    }
    assert forall i | 0 <= i < |signers| :: signers[i] in signers;
  }

  /** Signers read from a sparse mask fit unless they are listed out of order. */
  lemma {:induction false} SparseFitsIff(bs: Bytes)
    requires Octets(bs)
    ensures var d := ReadList(ReadInt, bs);
            d.Got? ==> (FitsSigners(d.value) <==> forall i | 0 < i < |d.value| :: d.value[i - 1] < d.value[i])
  {
    forall b: Bytes | Octets(b) ensures Fitting(ReadInt, (n: nat) => n <= MAX_INT, b) { IntFits(b); }
    ListFits(ReadInt, (n: nat) => n <= MAX_INT, bs);
  }

  /** A transaction without parts and what precedes its signatures. */
  function Bare(signers: seq<nat>, sig: Signature): Tx {
    Tx(2, seq(32, i => 0), [], [], [], [], Some(Aggregated(signers, sig)), [])
  }

  function BareBytes(mask: Bytes, sig: Signature): Bytes {
    var r4 := PutInt(MAX_INT, PutInt(AGGREGATED_PREFIX, sig + mask));
    MAGIC + ([0, 2] + PutHash(seq(32, i => 0), PutInt(0, PutInt(0, PutBlob([], r4)))))
  }

  lemma {:induction false} BareDecodes(mask: Bytes, sig: Signature, signers: seq<nat>)
    requires mask != [] && ReadSigners(mask) == Got(signers, [])
    ensures Decode(BareBytes(mask, sig)) == Some(Bare(signers, sig))
  {
    var r4 := PutInt(MAX_INT, PutInt(AGGREGATED_PREFIX, sig + mask));
    var r3 := PutBlob([], r4);
    var r2 := PutInt(0, r3);
    var r1 := PutInt(0, r2);
    var asset: Hash32 := seq(32, i => 0);
    IntBack(MAX_INT, PutInt(AGGREGATED_PREFIX, sig + mask));
    IntBack(AGGREGATED_PREFIX, sig + mask);
    ReadBack(sig, mask);
    BlobBack([], r4);
    IntBack(0, r3);
    IntBack(0, r2);
    HashBack(asset, r1);
    BodyBack(Bare(signers, sig), PutHash(asset, r1), r1, r2, r3, r4);
    HeaderRead(2, PutHash(asset, r1));
  }

  lemma {:induction false} BareSize(mask: Bytes, sig: Signature)
    ensures |BareBytes(mask, sig)| == 110 + |mask|
    ensures Octets(mask) && Octets(sig) ==> Octets(BareBytes(mask, sig))
  {
    assert Fixed(MAX_INT, 256, 2) == [255, 255] && Fixed(AGGREGATED_PREFIX, 256, 2) == [255, 1] &&
           Fixed(0, 256, 2) == [0, 0];
  }

  function SparseMask(signers: seq<nat>): Bytes { [1] + PutList(signers, PutInt, []) }

  /** A sparse mask that lists 1 before 0 decodes, and the comparison panics. */
  lemma {:induction false} UnorderedSigners(sig: Signature)
    requires Octets(sig)
    ensures var val := BareBytes(SparseMask([1, 0]), sig);
            Octets(val) && Decode(val) == Some(Bare([1, 0], sig)) && Unmarshal(val).Panicked?
  {
    var signers: seq<nat> := [1, 0];
    var mask := SparseMask(signers);
    SparseReads(signers);
    SparseSize();
    BareDecodes(mask, sig, signers);
    BareSize(mask, sig);
    PanicsIff(BareBytes(mask, sig));
  }

  lemma {:induction false} SparseReads(signers: seq<nat>)
    requires |signers| <= MAX_INT && forall i | 0 <= i < |signers| :: signers[i] <= MAX_INT
    ensures ReadSigners(SparseMask(signers)) == Got(signers, [])
  {
    IntsBack(signers, []);
    ReadBack([1], PutList(signers, PutInt, []));
  }

  lemma {:induction false} SparseSize()
    ensures |SparseMask([1, 0])| == 7 && Octets(SparseMask([1, 0]))
  {
    var signers: seq<nat> := [1, 0];
    assert Fixed(2, 256, 2) == [0, 2] && Fixed(1, 256, 2) == [0, 1] && Fixed(0, 256, 2) == [0, 0];
    assert PutMany(signers, PutInt, []) == [0, 1, 0, 0];
  }

  function WideMask(): Bytes { [0] + PutBlob(WideBits(), []) }

  /** Only bit 65536 is set. */
  function WideBits(): (r: Bytes)
    ensures |r| == 8193 && r[8192] == 1 && Octets(r)
  {
    seq(8193, i => if i == 8192 then 1 else 0)
  }

  lemma {:induction false} WideReads(masks: Bytes)
    requires |masks| <= MAX_INT
    ensures ReadSigners([0] + PutBlob(masks, [])) == Got(BitsBelow(masks, 8 * |masks|), [])
  {
    BlobBack(masks, []);
    ReadBack([0], PutBlob(masks, []));
  }

  lemma {:induction false} WideFails(masks: Bytes)
    requires |masks| == 8193 && masks[8192] == 1
    ensures !FitsSigners(BitsBelow(masks, 8 * |masks|))
  {
    OrdinaryFitsIff(masks);
    var k := 65536;
    assert k / 8 == 8192 && k % 8 == 0 && Bit(masks[k / 8], k % 8);
  }

  lemma {:induction false} WideSize()
    ensures |WideMask()| == 8196 && Octets(WideMask())
  {
    assert Fixed(8193 / 256, 256, 1) == [32];
    assert Fixed(8193, 256, 2) == [32, 1];
  }

  /** So does the comparison on an ordinary mask with a bit at 65536. */
  lemma {:induction false} WideSigners(sig: Signature)
    requires Octets(sig)
    ensures var val := BareBytes(WideMask(), sig);
            Octets(val) && Decode(val) == Some(Bare(BitsBelow(WideBits(), 65544), sig)) && Unmarshal(val).Panicked?
  {
    WideReads(WideBits());
    WideFails(WideBits());
    WideSize();
    BareDecodes(WideMask(), sig, BitsBelow(WideBits(), 65544));
    BareSize(WideMask(), sig);
    PanicsIff(BareBytes(WideMask(), sig));
  }

  // ----- the code: decode, encode twice, compare

  /** The checks of the encoder on signers. */
  method CheckSigners(signers: seq<nat>) returns (ok: bool)
    ensures ok == FitsSigners(signers)
  {
    for i := 0 to |signers|
      invariant forall j | 0 < j < i :: signers[j - 1] < signers[j]
      invariant forall j | 0 <= j < i :: signers[j] <= MAX_INT
    {
      if i > 0 && signers[i] <= signers[i - 1] {
        return false;
      }
      if signers[i] > MAX_INT {
        return false;
      }
    }
    return true;
  }

  method UnmarshalVersionedTransaction(val: Bytes) returns (r: Outcome)
    requires Octets(val)
    ensures r == Unmarshal(val)
    ensures r.Accepted? ==> Coherent(r.tx) && Encode(r.tx) == Some(val)
  {
    if |val| > MAXIMUM_SIZE {
      return Refused;
    }
    var dec := new TxStreams.Decoder(val);
    var tx := dec.DecodeTransaction();
    if tx.None? {
      return Refused;
    }
    EncodesIff(val, tx.value);
    if tx.value.aggregated.Some? {
      var ok := CheckSigners(tx.value.aggregated.value.signers);
      if !ok {
        return Panicked;
      }
    }
    var enc := new TxStreams.Encoder();
    enc.EncodeTransaction(tx.value);
    var ret1 := enc.buf;
    enc := new TxStreams.Encoder();
    enc.EncodeTransaction(Payload(tx.value));
    var ret2 := enc.buf;
    AcceptsIff(val, tx.value);
    return if val != ret1 && val != ret2 then Refused else Accepted(tx.value);
  }
}
