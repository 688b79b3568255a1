/** The byte encoding of transactions, versions 2 to 4.

    Encoding is written as "put in front of what follows"; decoding returns what it read and what
    is left. */
module TxCodec {
  import opened Digits

  type Bytes = seq<nat>
  type Hash32 = h: Bytes | |h| == 32 witness seq(32, i => 0)
  type Signature = s: Bytes | |s| == 64 witness seq(64, i => 0)
  type U64 = n: nat | n < 0x10000000000000000

  const MAX_INT := 0xFFFF
  const AGGREGATED_PREFIX := 0xFF01
  const EXTRA_CAPACITY := 4194304
  const MAGIC: Bytes := [0x77, 0x77]
  const NULL: Bytes := [0, 0]

  datatype Option<+T> = None | Some(value: T)

  datatype Deposit = Deposit(chain: Hash32, assetKey: Bytes, hash: Bytes, index: U64, amount: nat)

  datatype Mint = Mint(group: Bytes, batch: U64, amount: nat)

  datatype Input = Input(hash: Hash32, index: nat, genesis: Bytes, deposit: Option<Deposit>, mint: Option<Mint>)

  datatype Withdrawal = Withdrawal(chain: Hash32, assetKey: Bytes, address: Bytes, tag: Bytes)

  datatype Output = Output(typ: nat, amount: nat, keys: seq<Hash32>, mask: Hash32, script: Bytes,
                           withdrawal: Option<Withdrawal>)

  /** The signatures of one input, by the index of their key. */
  type Sigs = map<nat, Signature>

  /** One signature as it is written. */
  datatype Entry = Entry(index: nat, sig: Signature)

  datatype Aggregated = Aggregated(signers: seq<nat>, sig: Signature)

  datatype Tx = Tx(version: nat, asset: Hash32, inputs: seq<Input>, outputs: seq<Output>, references: seq<Hash32>,
                   extra: Bytes, aggregated: Option<Aggregated>, signatures: seq<Sigs>)

  // ----- reading

  datatype Dec<+T> = Got(value: T, rest: Bytes) | Fail {
    predicate IsFailure() { Fail? }
    function PropagateFailure<U>(): Dec<U> requires Fail? { Fail }
    function Extract(): (T, Bytes) requires Got? { (value, rest) }
  }

  /** At the end of the buffer even an empty read fails. */
  function Read(n: nat, bs: Bytes): (r: Dec<Bytes>)
    ensures r.Got? ==> |r.value| == n
  {
    if bs == [] || |bs| < n then Fail else Got(bs[..n], bs[n..])
  }

  function ReadUint(k: nat, bs: Bytes): Dec<nat>
  {
    var (b, r) :- Read(k, bs);
    Got(Value(b, 256), r)
  }

  function ReadInt(bs: Bytes): Dec<nat> { ReadUint(2, bs) }

  function ReadU64(bs: Bytes): Dec<nat> { ReadUint(8, bs) }

  function ReadInteger(bs: Bytes): Dec<nat> {
    var (l, r) :- ReadInt(bs);
    ReadUint(l, r)
  }

  function ReadBlob(bs: Bytes): Dec<Bytes> {
    var (l, r) :- ReadInt(bs);
    if l == 0 then Got([], r) else Read(l, r)
  }

  function ReadHash(bs: Bytes): Dec<Hash32> {
    var (h, r) :- Read(32, bs);
    Got(h, r)
  }

  function ReadSignature(bs: Bytes): Dec<Signature> {
    var (s, r) :- Read(64, bs);
    Got(s, r)
  }

  function ReadMagic(bs: Bytes): Dec<bool> {
    var (b, r) :- Read(2, bs);
    if b == MAGIC then Got(true, r) else if b == NULL then Got(false, r) else Fail
  }

  /** `n` items, one after the other. */
  function ReadMany<T>(n: nat, read: Bytes -> Dec<T>, bs: Bytes): (r: Dec<seq<T>>)
    ensures r.Got? ==> |r.value| == n
  {
    if n == 0 then Got([], bs)
    else
      var (x, r) :- read(bs);
      var (xs, r') :- ReadMany(n - 1, read, r);
      Got([x] + xs, r')
  }

  function ReadList<T>(read: Bytes -> Dec<T>, bs: Bytes): Dec<seq<T>> {
    var (n, r) :- ReadInt(bs);
    ReadMany(n, read, r)
  }

  // ----- putting

  function PutInt(n: nat, rest: Bytes): (r: Bytes)
    ensures r != []
  {
    Fixed(n, 256, 2) + rest
  }

  function PutU64(n: U64, rest: Bytes): Bytes { Fixed(n, 256, 8) + rest }

  function PutBlob(b: Bytes, rest: Bytes): (r: Bytes)
    ensures r != []
  {
    PutInt(|b|, b + rest)
  }

  function PutInteger(n: nat, rest: Bytes): Bytes { PutBlob(Canonical(n, 256), rest) }

  function PutMany<T(!new)>(xs: seq<T>, put: (T, Bytes) -> Bytes, rest: Bytes): Bytes {
    if xs == [] then rest else put(xs[0], PutMany(xs[1..], put, rest))
  }

  function PutList<T(!new)>(xs: seq<T>, put: (T, Bytes) -> Bytes, rest: Bytes): (r: Bytes)
    ensures r != []
  {
    PutInt(|xs|, PutMany(xs, put, rest))
  }

  function PutHash(h: Hash32, rest: Bytes): (r: Bytes)
    ensures r != []
  {
    h + rest
  }

  // ----- primitives read back

  lemma {:induction false} Powers()
    ensures Pow(256, 2) == 0x10000 && Pow(256, 4) == 0x100000000 && Pow(256, 8) == 0x10000000000000000
  {
    assert Pow(256, 0) == 1;
    assert Pow(256, 1) == 256;
    assert Pow(256, 2) == 65536;
    assert Pow(256, 3) == 16777216;
    assert Pow(256, 4) == 4294967296;
    assert Pow(256, 5) == 1099511627776;
    assert Pow(256, 6) == 281474976710656;
    assert Pow(256, 7) == 72057594037927936;
  }

  lemma {:induction false} ReadBack(b: Bytes, rest: Bytes)
    requires b != [] || rest != []
    ensures Read(|b|, b + rest) == Got(b, rest)
  {
    assert (b + rest)[..|b|] == b && (b + rest)[|b|..] == rest;
  }

  lemma {:induction false} UintBack(n: nat, k: nat, rest: Bytes)
    requires k > 0 && n < Pow(256, k)
    ensures ReadUint(k, Fixed(n, 256, k) + rest) == Got(n, rest)
  {
    FixedValue(n, 256, k);
    ReadBack(Fixed(n, 256, k), rest);
  }

  lemma {:induction false} IntBack(n: nat, rest: Bytes)
    requires n <= MAX_INT
    ensures ReadInt(PutInt(n, rest)) == Got(n, rest)
  {
    Powers();
    UintBack(n, 2, rest);
  }

  lemma {:induction false} U64Back(n: U64, rest: Bytes)
    ensures ReadU64(PutU64(n, rest)) == Got(n, rest)
  {
    Powers();
    UintBack(n, 8, rest);
  }

  lemma {:induction false} BlobBack(b: Bytes, rest: Bytes)
    requires |b| <= MAX_INT
    ensures ReadBlob(PutBlob(b, rest)) == Got(b, rest)
  {
    IntBack(|b|, b + rest);
    if b == [] {
      assert b + rest == rest;
    } else {
      ReadBack(b, rest);
    }
  }

  /** Reading back the amount 0 needs something to follow it. */
  lemma {:induction false} IntegerBack(n: nat, rest: Bytes)
    requires |Canonical(n, 256)| <= MAX_INT && (n > 0 || rest != [])
    ensures ReadInteger(PutInteger(n, rest)) == Got(n, rest)
  {
    var c := Canonical(n, 256);
    IntBack(|c|, c + rest);
    ValueCanonical(n, 256);
    ReadBack(c, rest);
  }

  lemma {:induction false} HashBack(h: Hash32, rest: Bytes)
    ensures ReadHash(PutHash(h, rest)) == Got(h, rest)
  {
    ReadBack(h, rest);
  }

  lemma {:induction false} MagicBack(rest: Bytes)
    ensures ReadMagic(MAGIC + rest) == Got(true, rest) && ReadMagic(NULL + rest) == Got(false, rest)
  {
    ReadBack(MAGIC, rest);
    ReadBack(NULL, rest);
  }

  /** Item `x` is read back before any bytes, or before any but none. */
  ghost predicate Inverts<T(!new)>(put: (T, Bytes) -> Bytes, read: Bytes -> Dec<T>, x: T, open: bool) {
    forall rest: Bytes | open || rest != [] :: read(put(x, rest)) == Got(x, rest) && put(x, rest) != []
  }

  lemma {:induction false} ManyBack<T(!new)>(xs: seq<T>, put: (T, Bytes) -> Bytes, read: Bytes -> Dec<T>, open: bool,
                                             rest: Bytes)
    requires open || rest != []
    requires forall i | 0 <= i < |xs| :: Inverts(put, read, xs[i], open)
    ensures ReadMany(|xs|, read, PutMany(xs, put, rest)) == Got(xs, rest)
    ensures xs != [] || rest != [] ==> PutMany(xs, put, rest) != []
    decreases |xs|
  {
    if xs != [] {
      ManyBack(xs[1..], put, read, open, rest);
      assert Inverts(put, read, xs[0], open);
      assert xs == [xs[0]] + xs[1..];
    }
  }

  lemma {:induction false} ListBack<T(!new)>(xs: seq<T>, put: (T, Bytes) -> Bytes, read: Bytes -> Dec<T>, open: bool,
                                             rest: Bytes)
    requires |xs| <= MAX_INT && (open || rest != [])
    requires forall i | 0 <= i < |xs| :: Inverts(put, read, xs[i], open)
    ensures ReadList(read, PutList(xs, put, rest)) == Got(xs, rest)
  {
    IntBack(|xs|, PutMany(xs, put, rest));
    ManyBack(xs, put, read, open, rest);
  }

  // ----- inputs

  predicate FitsBlob(b: Bytes) { |b| <= MAX_INT }

  predicate FitsInteger(n: nat) { |Canonical(n, 256)| <= MAX_INT }

  predicate FitsDeposit(d: Deposit) { FitsBlob(d.assetKey) && FitsBlob(d.hash) && FitsInteger(d.amount) }

  predicate FitsMint(m: Mint) { FitsBlob(m.group) && FitsInteger(m.amount) }

  /** What the encoder does not panic on. */
  predicate FitsInput(i: Input) {
    && i.index <= MAX_INT && FitsBlob(i.genesis)
    && (i.deposit.Some? ==> FitsDeposit(i.deposit.value)) && (i.mint.Some? ==> FitsMint(i.mint.value))
  }

  function PutDeposit(d: Option<Deposit>, rest: Bytes): (r: Bytes)
    ensures r != []
  {
    if d.None? then NULL + rest
    else
      var v := d.value;
      MAGIC + PutHash(v.chain, PutBlob(v.assetKey, PutBlob(v.hash, PutU64(v.index, PutInteger(v.amount, rest)))))
  }

  function PutMint(m: Option<Mint>, rest: Bytes): (r: Bytes)
    ensures r != []
  {
    if m.None? then NULL + rest
    else MAGIC + PutBlob(m.value.group, PutU64(m.value.batch, PutInteger(m.value.amount, rest)))
  }

  function PutInput(i: Input, rest: Bytes): (r: Bytes)
    ensures r != []
  {
    PutHash(i.hash, PutInt(i.index, PutBlob(i.genesis, PutDeposit(i.deposit, PutMint(i.mint, rest)))))
  }

  function ReadU64Value(bs: Bytes): Dec<U64> {
    var (n, r) :- ReadU64(bs);
    if n < 0x10000000000000000 then Got(n, r) else Fail
  }

  function ReadDeposit(bs: Bytes): Dec<Option<Deposit>> {
    var (some, r0) :- ReadMagic(bs);
    if !some then Got(None, r0)
    else
      var (chain, r1) :- ReadHash(r0);
      var (key, r2) :- ReadBlob(r1);
      var (hash, r3) :- ReadBlob(r2);
      var (index, r4) :- ReadU64Value(r3);
      var (amount, r5) :- ReadInteger(r4);
      Got(Some(Deposit(chain, key, hash, index, amount)), r5)
  }

  function ReadMint(bs: Bytes): Dec<Option<Mint>> {
    var (some, r0) :- ReadMagic(bs);
    if !some then Got(None, r0)
    else
      var (group, r1) :- ReadBlob(r0);
      var (batch, r2) :- ReadU64Value(r1);
      var (amount, r3) :- ReadInteger(r2);
      Got(Some(Mint(group, batch, amount)), r3)
  }

  function ReadInput(bs: Bytes): Dec<Input> {
    var (hash, r0) :- ReadHash(bs);
    var (index, r1) :- ReadInt(r0);
    var (genesis, r2) :- ReadBlob(r1);
    var (deposit, r3) :- ReadDeposit(r2);
    var (mint, r4) :- ReadMint(r3);
    Got(Input(hash, index, genesis, deposit, mint), r4)
  }

  lemma {:induction false} DepositBack(d: Option<Deposit>, rest: Bytes)
    requires rest != [] && (d.Some? ==> FitsDeposit(d.value))
    ensures ReadDeposit(PutDeposit(d, rest)) == Got(d, rest)
  {
    if d.None? {
      MagicBack(rest);
    } else {
      var v := d.value;
      var r4 := PutInteger(v.amount, rest);
      var r3 := PutU64(v.index, r4);
      var r2 := PutBlob(v.hash, r3);
      var r1 := PutBlob(v.assetKey, r2);
      MagicBack(PutHash(v.chain, r1));
      HashBack(v.chain, r1);
      BlobBack(v.assetKey, r2);
      BlobBack(v.hash, r3);
      U64Back(v.index, r4);
      IntegerBack(v.amount, rest);
    }
  }

  lemma {:induction false} MintBack(m: Option<Mint>, rest: Bytes)
    requires rest != [] && (m.Some? ==> FitsMint(m.value))
    ensures ReadMint(PutMint(m, rest)) == Got(m, rest)
  {
    if m.None? {
      MagicBack(rest);
    } else {
      var v := m.value;
      var r2 := PutInteger(v.amount, rest);
      var r1 := PutU64(v.batch, r2);
      MagicBack(PutBlob(v.group, r1));
      BlobBack(v.group, r1);
      U64Back(v.batch, r2);
      IntegerBack(v.amount, rest);
    }
  }

  lemma {:induction false} InputBack(i: Input, rest: Bytes)
    requires rest != [] && FitsInput(i)
    ensures ReadInput(PutInput(i, rest)) == Got(i, rest)
  {
    var r3 := PutMint(i.mint, rest);
    var r2 := PutDeposit(i.deposit, r3);
    var r1 := PutBlob(i.genesis, r2);
    var r0 := PutInt(i.index, r1);
    HashBack(i.hash, r0);
    IntBack(i.index, r1);
    BlobBack(i.genesis, r2);
    DepositBack(i.deposit, r3);
    MintBack(i.mint, rest);
  }

  // ----- outputs

  predicate FitsOutput(o: Output) {
    && o.typ < 256 && FitsInteger(o.amount) && |o.keys| <= MAX_INT && FitsBlob(o.script)
    && (o.withdrawal.Some? ==>
          FitsBlob(o.withdrawal.value.assetKey) && FitsBlob(o.withdrawal.value.address) &&
          FitsBlob(o.withdrawal.value.tag))
  }

  function PutWithdrawal(w: Option<Withdrawal>, rest: Bytes): (r: Bytes)
    ensures r != []
  {
    if w.None? then NULL + rest
    else MAGIC + PutHash(w.value.chain, PutBlob(w.value.assetKey, PutBlob(w.value.address, PutBlob(w.value.tag, rest))))
  }

  function PutOutput(o: Output, rest: Bytes): (r: Bytes)
    ensures r != []
  {
    var tail := PutHash(o.mask, PutBlob(o.script, PutWithdrawal(o.withdrawal, rest)));
    [0, o.typ] + PutInteger(o.amount, PutList(o.keys, PutHash, tail))
  }

  function ReadWithdrawal(bs: Bytes): Dec<Option<Withdrawal>> {
    var (some, r0) :- ReadMagic(bs);
    if !some then Got(None, r0)
    else
      var (chain, r1) :- ReadHash(r0);
      var (key, r2) :- ReadBlob(r1);
      var (address, r3) :- ReadBlob(r2);
      var (tag, r4) :- ReadBlob(r3);
      Got(Some(Withdrawal(chain, key, address, tag)), r4)
  }

  function ReadOutput(bs: Bytes): Dec<Output> {
    var (t, r0) :- Read(2, bs);
    if t[0] != 0 then Fail
    else
      var (amount, r1) :- ReadInteger(r0);
      var (keys, r2) :- ReadList(ReadHash, r1);
      var (mask, r3) :- ReadHash(r2);
      var (script, r4) :- ReadBlob(r3);
      var (withdrawal, r5) :- ReadWithdrawal(r4);
      Got(Output(t[1], amount, keys, mask, script, withdrawal), r5)
  }

  lemma {:induction false} WithdrawalBack(w: Option<Withdrawal>, rest: Bytes)
    requires w.Some? ==> FitsBlob(w.value.assetKey) && FitsBlob(w.value.address) && FitsBlob(w.value.tag)
    ensures ReadWithdrawal(PutWithdrawal(w, rest)) == Got(w, rest)
  {
    if w.None? {
      MagicBack(rest);
    } else {
      var v := w.value;
      var r3 := PutBlob(v.tag, rest);
      var r2 := PutBlob(v.address, r3);
      var r1 := PutBlob(v.assetKey, r2);
      MagicBack(PutHash(v.chain, r1));
      HashBack(v.chain, r1);
      BlobBack(v.assetKey, r2);
      BlobBack(v.address, r3);
      BlobBack(v.tag, rest);
    }
  }

  lemma {:induction false} HashesBack(hs: seq<Hash32>, rest: Bytes)
    requires |hs| <= MAX_INT
    ensures ReadList(ReadHash, PutList(hs, PutHash, rest)) == Got(hs, rest)
  {
    forall i | 0 <= i < |hs|
      ensures Inverts(PutHash, ReadHash, hs[i], true)
    {
      forall r: Bytes
        ensures ReadHash(PutHash(hs[i], r)) == Got(hs[i], r)
      {
        HashBack(hs[i], r);
      }
    }
    ListBack(hs, PutHash, ReadHash, true, rest);
  }

  lemma {:induction false} OutputBack(o: Output, rest: Bytes)
    requires FitsOutput(o)
    ensures ReadOutput(PutOutput(o, rest)) == Got(o, rest)
  {
    var r4 := PutWithdrawal(o.withdrawal, rest);
    var r3 := PutBlob(o.script, r4);
    var r2 := PutHash(o.mask, r3);
    var r1 := PutList(o.keys, PutHash, r2);
    var r0 := PutInteger(o.amount, r1);
    ReadBack([0, o.typ], r0);
    IntegerBack(o.amount, r1);
    HashesBack(o.keys, r2);
    HashBack(o.mask, r3);
    BlobBack(o.script, r4);
    WithdrawalBack(o.withdrawal, rest);
  }

  // ----- signature maps

  ghost predicate SortedEntries(es: seq<Entry>) {
    forall i, j | 0 <= i < j < |es| :: es[i].index < es[j].index
  }

  /** Inserting at its place, over an entry with the same index. */
  function Store(es: seq<Entry>, e: Entry): seq<Entry> {
    if es == [] then [e]
    else
      var init, last := es[..|es| - 1], es[|es| - 1];
      if last.index < e.index then es + [e] else if last.index == e.index then init + [e] else Store(init, e) + [last]
  }

  function PutEntry(e: Entry, rest: Bytes): (r: Bytes)
    ensures r != []
  {
    PutInt(e.index, e.sig + rest)
  }

  function ReadEntry(bs: Bytes): Dec<Entry> {
    var (index, r0) :- ReadInt(bs);
    var (sig, r1) :- ReadSignature(r0);
    Got(Entry(index, sig), r1)
  }

  /** The signature map a list of entries stands for. */
  function AsMap(es: seq<Entry>): Sigs {
    if es == [] then map[] else AsMap(es[..|es| - 1])[es[|es| - 1].index := es[|es| - 1].sig]
  }

  lemma {:induction false} AsMapHolds(es: seq<Entry>)
    requires SortedEntries(es)
    ensures forall e: Entry :: e in es <==> e.index in AsMap(es) && AsMap(es)[e.index] == e.sig
    decreases |es|
  {
    if es != [] {
      var init, last := es[..|es| - 1], es[|es| - 1];
      AsMapHolds(init);
      assert es == init + [last];
      assert forall e <- init :: e.index < last.index;
    }
  }

  /** Storing an entry is updating the map, and keeps the order. */
  lemma {:induction false} StoreUpdates(es: seq<Entry>, e: Entry)
    requires SortedEntries(es)
    ensures SortedEntries(Store(es, e)) && AsMap(Store(es, e)) == AsMap(es)[e.index := e.sig]
  {
    StoreOrder(es, e);
    StoreMap(es, e);
  }

  lemma {:induction false} StoreOrder(es: seq<Entry>, e: Entry)
    requires SortedEntries(es)
    ensures SortedEntries(Store(es, e)) && forall d <- Store(es, e) :: d == e || d in es
    decreases |es|
  {
    if es != [] {
      DropLast(es);
      StoreOrder(es[..|es| - 1], e);
    }
  }

  lemma {:induction false} StoreMap(es: seq<Entry>, e: Entry)
    ensures AsMap(Store(es, e)) == AsMap(es)[e.index := e.sig]
    decreases |es|
  {
    if es == [] {
      AsMapSnoc([], e);
      assert Store(es, e) == [] + [e];
    } else {
      var init, last := es[..|es| - 1], es[|es| - 1];
      if last.index < e.index {
        AsMapSnoc(es, e);
      } else if last.index == e.index {
        AsMapSnoc(init, e);
        TwoUpdates(AsMap(init), last, e);
      } else {
        StoreMap(init, e);
        AsMapSnoc(Store(init, e), last);
        TwoUpdates(AsMap(init), last, e);
      }
    }
  }

  lemma {:induction false} TwoUpdates(m: Sigs, d: Entry, e: Entry)
    ensures m[d.index := d.sig][e.index := e.sig] ==
            if d.index == e.index then m[e.index := e.sig] else m[e.index := e.sig][d.index := d.sig]
  {
  }

  lemma {:induction false} AsMapSnoc(es: seq<Entry>, e: Entry)
    ensures AsMap(es + [e]) == AsMap(es)[e.index := e.sig]
  {
    assert (es + [e])[..|es|] == es;
  }

  /** Lists in order that stand for the same map are the same. */
  lemma {:induction false} OneListPerMap(a: seq<Entry>, b: seq<Entry>)
    requires SortedEntries(a) && SortedEntries(b) && AsMap(a) == AsMap(b)
    ensures a == b
    decreases |a|
  {
    AsMapHolds(a);
    AsMapHolds(b);
    assert forall e: Entry :: e in a <==> e in b;
    assert a == [] || a[0] in a;
    assert b == [] || b[0] in b;
    if a != [] {
      var x, y := a[|a| - 1], b[|b| - 1];
      assert x in b && y in a;
      assert x == y;
      DropLast(a);
      DropLast(b);
      AsMapHolds(a[..|a| - 1]);
      AsMapHolds(b[..|b| - 1]);
      SameMap(a[..|a| - 1], b[..|b| - 1]);
      OneListPerMap(a[..|a| - 1], b[..|b| - 1]);
      assert a == a[..|a| - 1] + [x] && b == b[..|b| - 1] + [y];
    }
  }

  lemma {:induction false} DropLast(a: seq<Entry>)
    requires SortedEntries(a) && a != []
    ensures SortedEntries(a[..|a| - 1]) && forall e <- a[..|a| - 1] :: e.index < a[|a| - 1].index
    ensures forall e: Entry :: e in a[..|a| - 1] <==> e in a && e != a[|a| - 1]
  {
    var init, last := a[..|a| - 1], a[|a| - 1];
    assert a == init + [last];
    assert forall i | 0 <= i < |init| :: init[i] == a[i] && a[i].index < last.index;
  }

  lemma {:induction false} SameMap(a: seq<Entry>, b: seq<Entry>)
    requires SortedEntries(a) && SortedEntries(b) && forall e: Entry :: e in a <==> e in b
    ensures AsMap(a) == AsMap(b)
  {
    AsMapHolds(a);
    AsMapHolds(b);
    assert forall i <- AsMap(a) :: Entry(i, AsMap(a)[i]) in b;
    assert forall i <- AsMap(b) :: Entry(i, AsMap(b)[i]) in a;
  }

  lemma {:induction false} EntryBack(e: Entry, rest: Bytes)
    requires e.index <= MAX_INT
    ensures ReadEntry(PutEntry(e, rest)) == Got(e, rest)
  {
    IntBack(e.index, e.sig + rest);
    ReadBack(e.sig, rest);
  }

  predicate IsGreatest(s: set<nat>, k: nat) { k in s && forall j <- s :: j <= k }

  lemma {:induction false} GreatestExists(s: set<nat>) returns (k: nat)
    requires s != {}
    ensures IsGreatest(s, k)
    decreases |s|
  {
    k :| k in s;
    if s - {k} != {} {
      var y := GreatestExists(s - {k});
      assert forall j <- s :: j == k || j in s - {k};
      k := if k < y then y else k;
    } else {
      assert forall j <- s :: j == k || j in s - {k};
    }
  }

  function Greatest(s: set<nat>): (k: nat)
    requires s != {}
    ensures IsGreatest(s, k)
  {
    assert exists k :: IsGreatest(s, k) by {
      var k := GreatestExists(s);
    }
    var k :| IsGreatest(s, k);
    k
  }

  /** The entries of a map in the order of their indexes. */
  function Entries(m: Sigs): seq<Entry>
    decreases |m.Keys|
  {
    if m.Keys == {} then []
    else
      var k := Greatest(m.Keys);
      assert (m - {k}).Keys == m.Keys - {k};
      Entries(m - {k}) + [Entry(k, m[k])]
  }

  lemma {:induction false} EntriesAre(m: Sigs)
    ensures SortedEntries(Entries(m)) && AsMap(Entries(m)) == m && |Entries(m)| == |m|
    ensures forall e <- Entries(m) :: e.index in m
  {
    EntriesOrder(m);
    EntriesMap(m);
  }

  lemma {:induction false} EntriesMap(m: Sigs)
    ensures AsMap(Entries(m)) == m && |Entries(m)| == |m|
    decreases |m.Keys|
  {
    if m.Keys == {} {
      assert m == map[];
    } else {
      var k := Greatest(m.Keys);
      WithoutKey(m, k);
      EntriesMap(m - {k});
      AsMapSnoc(Entries(m - {k}), Entry(k, m[k]));
    }
  }

  lemma {:induction false} EntriesOrder(m: Sigs)
    ensures SortedEntries(Entries(m)) && forall e <- Entries(m) :: e.index in m
    decreases |m.Keys|
  {
    if m.Keys != {} {
      var k := Greatest(m.Keys);
      WithoutKey(m, k);
      EntriesOrder(m - {k});
      SortedSnoc(Entries(m - {k}), Entry(k, m[k]));
    }
  }

  lemma {:induction false} WithoutKey(m: Sigs, k: nat)
    requires k in m
    ensures (m - {k}).Keys == m.Keys - {k} && (m - {k})[k := m[k]] == m && |m| == |m - {k}| + 1
  {
    assert (m - {k}).Keys == m.Keys - {k};
    assert |m.Keys| == |(m - {k}).Keys| + 1;
  }

  lemma {:induction false} SortedSnoc(es: seq<Entry>, e: Entry)
    requires SortedEntries(es) && forall d <- es :: d.index < e.index
    ensures SortedEntries(es + [e])
  {
    assert forall i | 0 <= i < |es| :: es[i] in es;
  }

  function PutEntries(m: Sigs, rest: Bytes): (r: Bytes)
    ensures r != []
  {
    PutList(Entries(m), PutEntry, rest)
  }

  /** A repeated index makes the map smaller than the count. */
  function ReadEntries(bs: Bytes): Dec<Sigs> {
    var (es, r) :- ReadList(ReadEntry, bs);
    if |AsMap(es)| != |es| then Fail else Got(AsMap(es), r)
  }

  predicate FitsEntries(m: Sigs) {
    |m| <= MAX_INT && forall k <- m :: k <= MAX_INT
  }

  lemma {:induction false} EntriesBack(m: Sigs, rest: Bytes)
    requires FitsEntries(m)
    ensures ReadEntries(PutEntries(m, rest)) == Got(m, rest)
  {
    var es := Entries(m);
    EntriesAre(m);
    forall i | 0 <= i < |es|
      ensures Inverts(PutEntry, ReadEntry, es[i], true)
    {
      forall r: Bytes
        ensures ReadEntry(PutEntry(es[i], r)) == Got(es[i], r)
      {
        EntryBack(es[i], r);
      }
    }
    ListBack(es, PutEntry, ReadEntry, true, rest);
  }

  // ----- signer masks

  predicate Bit(b: nat, j: nat) {
    if j == 0 then b % 2 == 1 else Bit(b / 2, j - 1)
  }

  function Join(low: bool, high: nat): nat { 2 * high + if low then 1 else 0 }

  lemma {:induction false} JoinBit(low: bool, high: nat, j: nat)
    ensures Bit(Join(low, high), j) == if j == 0 then low else Bit(high, j - 1)
  {
    assert Join(low, high) / 2 == high;
  }

  /** The bits from `k` on of the mask byte for the signers from `base` on. */
  function MaskFrom(signers: seq<nat>, base: nat, k: nat): nat
    requires k <= 8
    decreases 8 - k
  {
    if k == 8 then 0 else Join(base + k in signers, MaskFrom(signers, base, k + 1))
  }

  function MaskByte(signers: seq<nat>, i: nat): nat { MaskFrom(signers, 8 * i, 0) }

  function Masks(signers: seq<nat>, n: nat): (r: Bytes)
    ensures |r| == n && forall i | 0 <= i < n :: r[i] == MaskByte(signers, i)
  {
    seq(n, i requires 0 <= i < n => MaskByte(signers, i))
  }

  lemma {:induction false} MaskBit(signers: seq<nat>, base: nat, k: nat, j: nat)
    requires k + j < 8
    ensures Bit(MaskFrom(signers, base, k), j) <==> base + k + j in signers
    decreases j
  {
    JoinBit(base + k in signers, MaskFrom(signers, base, k + 1), j);
    if j > 0 {
      MaskBit(signers, base, k + 1, j - 1);
    }
  }

  /** The indexes below `k` whose bit is set, in order. */
  function BitsBelow(masks: Bytes, k: nat): seq<nat>
    requires k <= 8 * |masks|
  {
    if k == 0 then []
    else BitsBelow(masks, k - 1) + (if Bit(masks[(k - 1) / 8], (k - 1) % 8) then [k - 1] else [])
  }

  lemma {:induction false} MaskHolds(signers: seq<nat>, n: nat, k: nat)
    requires k < 8 * n
    ensures k / 8 < n && (Bit(Masks(signers, n)[k / 8], k % 8) <==> k in signers)
  {
    MaskBit(signers, 8 * (k / 8), 0, k % 8);
    assert 8 * (k / 8) + k % 8 == k;
  }

  ghost predicate Increasing(s: seq<nat>) {
    forall i, j | 0 <= i < j < |s| :: s[i] < s[j]
  }

  /** The masks have exactly the bits of the signers. */
  ghost predicate MaskFor(masks: Bytes, signers: seq<nat>) {
    forall k: nat | k < 8 * |masks| :: Bit(masks[k / 8], k % 8) <==> k in signers
  }

  lemma {:induction false} MasksFor(signers: seq<nat>, n: nat)
    ensures MaskFor(Masks(signers, n), signers)
  {
    forall k: nat | k < 8 * n
      ensures Bit(Masks(signers, n)[k / 8], k % 8) <==> k in signers
    {
      MaskHolds(signers, n, k);
    }
  }

  /** Strictly increasing lists below `k`, one index at a time. */
  lemma {:induction false} BitsAreSigners(masks: Bytes, signers: seq<nat>, k: nat, p: nat)
    requires Increasing(signers) && MaskFor(masks, signers) && k <= 8 * |masks| && p <= |signers|
    requires forall i | 0 <= i < p :: signers[i] < k
    requires forall i | p <= i < |signers| :: signers[i] >= k
    ensures BitsBelow(masks, k) == signers[..p]
    decreases k
  {
    if k > 0 {
      assert Bit(masks[(k - 1) / 8], (k - 1) % 8) <==> k - 1 in signers;
      if p > 0 && signers[p - 1] == k - 1 {
        BitsAreSigners(masks, signers, k - 1, p - 1);
        assert k - 1 in signers;
        assert signers[..p] == signers[..p - 1] + [k - 1];
      } else {
        NotBetween(signers, k, p);
        BitsAreSigners(masks, signers, k - 1, p);
      }
    } else {
      assert signers[..p] == [];
    }
  }

  lemma {:induction false} NotBetween(signers: seq<nat>, k: nat, p: nat)
    requires Increasing(signers) && 0 < k && p <= |signers| && (p > 0 ==> signers[p - 1] != k - 1)
    requires forall i | 0 <= i < p :: signers[i] < k
    requires forall i | p <= i < |signers| :: signers[i] >= k
    ensures k - 1 !in signers && forall i | 0 <= i < p :: signers[i] < k - 1
  {
    forall i | 0 <= i < p
      ensures signers[i] < k - 1
    {
      if i < p - 1 {
        assert signers[i] < signers[p - 1];
      }
    }
  }

  // ----- aggregated signatures

  predicate FitsSigners(signers: seq<nat>) {
    && (forall i | 0 < i < |signers| :: signers[i - 1] < signers[i])
    && (forall i | 0 <= i < |signers| :: signers[i] <= MAX_INT)
  }

  predicate FitsAggregated(a: Aggregated) { FitsSigners(a.signers) }

  lemma {:induction false} StepsIncrease(s: seq<nat>, i: nat, j: nat)
    requires (forall k | 0 < k < |s| :: s[k - 1] < s[k]) && i < j < |s|
    ensures s[i] < s[j]
    decreases j
  {
    if i < j - 1 {
      StepsIncrease(s, i, j - 1);
    }
  }

  function MaskSize(signers: seq<nat>): nat {
    if signers == [] then 0 else signers[|signers| - 1] / 8 + 1
  }

  predicate Sparse(signers: seq<nat>) {
    MaskSize(signers) > 2 * |signers|
  }

  function PutSigners(signers: seq<nat>, rest: Bytes): Bytes {
    if Sparse(signers) then [1] + PutList(signers, PutInt, rest)
    else [0] + PutBlob(Masks(signers, MaskSize(signers)), rest)
  }

  function ReadSigners(bs: Bytes): Dec<seq<nat>> {
    var (t, r) :- Read(1, bs);
    if t[0] == 1 then ReadList(ReadInt, r)
    else if t[0] == 0 then
      var (masks, r') :- ReadBlob(r);
      Got(BitsBelow(masks, 8 * |masks|), r')
    else Fail
  }

  lemma {:induction false} IntsBack(xs: seq<nat>, rest: Bytes)
    requires |xs| <= MAX_INT && forall i | 0 <= i < |xs| :: xs[i] <= MAX_INT
    ensures ReadList(ReadInt, PutList(xs, PutInt, rest)) == Got(xs, rest)
  {
    forall i | 0 <= i < |xs|
      ensures Inverts(PutInt, ReadInt, xs[i], true)
    {
      forall r: Bytes
        ensures ReadInt(PutInt(xs[i], r)) == Got(xs[i], r)
      {
        IntBack(xs[i], r);
      }
    }
    ListBack(xs, PutInt, ReadInt, true, rest);
  }

  /** Both forms of the mask are read back: a list when signers are few and far between, bits
      otherwise. */
  lemma {:induction false} SignersBack(signers: seq<nat>, rest: Bytes)
    requires FitsSigners(signers)
    ensures ReadSigners(PutSigners(signers, rest)) == Got(signers, rest)
  {
    var n := MaskSize(signers);
    if Sparse(signers) {
      ReadBack([1], PutList(signers, PutInt, rest));
      IntsBack(signers, rest);
    } else {
      ReadBack([0], PutBlob(Masks(signers, n), rest));
      BlobBack(Masks(signers, n), rest);
      forall i, j | 0 <= i < j < |signers|
        ensures signers[i] < signers[j]
      {
        StepsIncrease(signers, i, j);
      }
      MasksFor(signers, n);
      BitsAreSigners(Masks(signers, n), signers, 8 * n, |signers|);
      assert signers[..|signers|] == signers;
    }
  }

  function PutAggregated(a: Aggregated, rest: Bytes): Bytes {
    PutInt(MAX_INT, PutInt(AGGREGATED_PREFIX, a.sig + PutSigners(a.signers, rest)))
  }

  function ReadAggregated(bs: Bytes): Dec<Aggregated> {
    var (prefix, r0) :- ReadInt(bs);
    if prefix != AGGREGATED_PREFIX then Fail
    else
      var (sig, r1) :- ReadSignature(r0);
      var (signers, r2) :- ReadSigners(r1);
      Got(Aggregated(signers, sig), r2)
  }

  // ----- transactions

  function PutSignatures(tx: Tx, rest: Bytes): Bytes {
    if tx.aggregated.Some? then PutAggregated(tx.aggregated.value, rest) else PutList(tx.signatures, PutEntries, rest)
  }

  /** The count 0xFFFF announces an aggregated signature. */
  function ReadSignatures(bs: Bytes): Dec<(Option<Aggregated>, seq<Sigs>)> {
    var (n, r) :- ReadInt(bs);
    if n == MAX_INT then
      var (a, r') :- ReadAggregated(r);
      Got((Some(a), []), r')
    else
      var (es, r') :- ReadMany(n, ReadEntries, r);
      Got((None, es), r')
  }

  const REFERENCES_VERSION := 4

  function PutExtra(tx: Tx, rest: Bytes): Bytes {
    if tx.version >= REFERENCES_VERSION
    then PutList(tx.references, PutHash, Fixed(|tx.extra|, 256, 4) + (tx.extra + rest))
    else PutBlob(tx.extra, rest)
  }

  function ReadExtra(version: nat, bs: Bytes): Dec<(seq<Hash32>, Bytes)> {
    if version >= REFERENCES_VERSION then
      var (refs, r0) :- ReadList(ReadHash, bs);
      var (n, r1) :- ReadUint(4, r0);
      if n == 0 then Got((refs, []), r1)
      else
        var (extra, r2) :- Read(n, r1);
        Got((refs, extra), r2)
    else
      var (extra, r0) :- ReadBlob(bs);
      Got(([], extra), r0)
  }

  function PutTx(tx: Tx): Bytes {
    var tail := PutList(tx.outputs, PutOutput, PutExtra(tx, PutSignatures(tx, [])));
    MAGIC + ([0, tx.version] + PutHash(tx.asset, PutList(tx.inputs, PutInput, tail)))
  }

  /** What the encoder does not panic on. */
  predicate Fits(tx: Tx) {
    && 2 <= tx.version <= 4
    && |tx.inputs| <= MAX_INT && (forall i | 0 <= i < |tx.inputs| :: FitsInput(tx.inputs[i]))
    && |tx.outputs| <= MAX_INT && (forall i | 0 <= i < |tx.outputs| :: FitsOutput(tx.outputs[i]))
    && (if tx.version >= REFERENCES_VERSION then |tx.references| <= MAX_INT && |tx.extra| <= EXTRA_CAPACITY
        else |tx.extra| <= MAX_INT)
    && (if tx.aggregated.Some? then FitsAggregated(tx.aggregated.value)
        else |tx.signatures| < MAX_INT && forall i | 0 <= i < |tx.signatures| :: FitsEntries(tx.signatures[i]))
  }

  function Encode(tx: Tx): Option<Bytes> {
    if Fits(tx) then Some(PutTx(tx)) else None
  }

  /** Everything after the header. */
  function ReadBody(version: nat, bs: Bytes): Dec<Tx> {
    var (asset, r1) :- ReadHash(bs);
    var (inputs, r2) :- ReadList(ReadInput, r1);
    var (outputs, r3) :- ReadList(ReadOutput, r2);
    var (more, r4) :- ReadExtra(version, r3);
    var (sigs, r5) :- ReadSignatures(r4);
    if r5 != [] then Fail else Got(Tx(version, asset, inputs, outputs, more.0, more.1, sigs.0, sigs.1), r5)
  }

  function ReadTx(bs: Bytes): Dec<Tx> {
    var (m, r0) :- Read(4, bs);
    if m[..3] != [0x77, 0x77, 0] || !(2 <= m[3] <= 4) then Fail else ReadBody(m[3], r0)
  }

  function Decode(bs: Bytes): Option<Tx> {
    var r := ReadTx(bs);
    if r.Got? then Some(r.value) else None
  }

  /** A transaction whose every part its version encodes: no references before version 4, no
      signature maps beside an aggregated signature. */
  predicate Coherent(tx: Tx) {
    (tx.version < REFERENCES_VERSION ==> tx.references == []) && (tx.aggregated.Some? ==> tx.signatures == [])
  }

  lemma {:induction false} InputsBack(xs: seq<Input>, rest: Bytes)
    requires rest != [] && |xs| <= MAX_INT && forall i | 0 <= i < |xs| :: FitsInput(xs[i])
    ensures ReadList(ReadInput, PutList(xs, PutInput, rest)) == Got(xs, rest)
  {
    forall i | 0 <= i < |xs|
      ensures Inverts(PutInput, ReadInput, xs[i], false)
    {
      forall r: Bytes | r != []
        ensures ReadInput(PutInput(xs[i], r)) == Got(xs[i], r)
      {
        InputBack(xs[i], r);
      }
    }
    ListBack(xs, PutInput, ReadInput, false, rest);
  }

  lemma {:induction false} OutputsBack(xs: seq<Output>, rest: Bytes)
    requires |xs| <= MAX_INT && forall i | 0 <= i < |xs| :: FitsOutput(xs[i])
    ensures ReadList(ReadOutput, PutList(xs, PutOutput, rest)) == Got(xs, rest)
  {
    forall i | 0 <= i < |xs|
      ensures Inverts(PutOutput, ReadOutput, xs[i], true)
    {
      forall r: Bytes
        ensures ReadOutput(PutOutput(xs[i], r)) == Got(xs[i], r)
      {
        OutputBack(xs[i], r);
      }
    }
    ListBack(xs, PutOutput, ReadOutput, true, rest);
  }

  lemma {:induction false} MapsBack(xs: seq<Sigs>, rest: Bytes)
    requires forall i | 0 <= i < |xs| :: FitsEntries(xs[i])
    ensures ReadMany(|xs|, ReadEntries, PutMany(xs, PutEntries, rest)) == Got(xs, rest)
  {
    forall i | 0 <= i < |xs|
      ensures Inverts(PutEntries, ReadEntries, xs[i], true)
    {
      forall r: Bytes
        ensures ReadEntries(PutEntries(xs[i], r)) == Got(xs[i], r)
      {
        EntriesBack(xs[i], r);
      }
    }
    ManyBack(xs, PutEntries, ReadEntries, true, rest);
  }

  lemma {:induction false} SignaturesBack(tx: Tx, rest: Bytes)
    requires Fits(tx) && Coherent(tx)
    ensures ReadSignatures(PutSignatures(tx, rest)) == Got((tx.aggregated, tx.signatures), rest)
    ensures PutSignatures(tx, rest) != []
  {
    if tx.aggregated.Some? {
      var a := tx.aggregated.value;
      var r1 := a.sig + PutSigners(a.signers, rest);
      IntBack(MAX_INT, PutInt(AGGREGATED_PREFIX, r1));
      IntBack(AGGREGATED_PREFIX, r1);
      ReadBack(a.sig, PutSigners(a.signers, rest));
      SignersBack(a.signers, rest);
    } else {
      IntBack(|tx.signatures|, PutMany(tx.signatures, PutEntries, rest));
      MapsBack(tx.signatures, rest);
    }
  }

  lemma {:induction false} ExtraBack(tx: Tx, rest: Bytes)
    requires Fits(tx) && Coherent(tx) && rest != []
    ensures ReadExtra(tx.version, PutExtra(tx, rest)) == Got((tx.references, tx.extra), rest) &&
            PutExtra(tx, rest) != []
  {
    if tx.version >= REFERENCES_VERSION {
      var r1 := tx.extra + rest;
      Powers();
      HashesBack(tx.references, Fixed(|tx.extra|, 256, 4) + r1);
      UintBack(|tx.extra|, 4, r1);
      ReadBack(tx.extra, rest);
      if tx.extra == [] {
        assert r1 == rest;
      }
    } else {
      BlobBack(tx.extra, rest);
    }
  }

  lemma {:induction false} BodyBack(tx: Tx, r0: Bytes, r1: Bytes, r2: Bytes, r3: Bytes, r4: Bytes)
    requires ReadHash(r0) == Got(tx.asset, r1) && ReadList(ReadInput, r1) == Got(tx.inputs, r2)
    requires ReadList(ReadOutput, r2) == Got(tx.outputs, r3)
    requires ReadExtra(tx.version, r3) == Got((tx.references, tx.extra), r4)
    requires ReadSignatures(r4) == Got((tx.aggregated, tx.signatures), [])
    ensures ReadBody(tx.version, r0) == Got(tx, [])
  {
  }

  lemma {:induction false} TxBack(tx: Tx)
    requires Fits(tx) && Coherent(tx)
    ensures ReadTx(PutTx(tx)) == Got(tx, [])
  {
    var r4 := PutSignatures(tx, []);
    var r3 := PutExtra(tx, r4);
    var r2 := PutList(tx.outputs, PutOutput, r3);
    var r1 := PutList(tx.inputs, PutInput, r2);
    var r0 := PutHash(tx.asset, r1);
    SignaturesBack(tx, []);
    ExtraBack(tx, r4);
    OutputsBack(tx.outputs, r3);
    InputsBack(tx.inputs, r2);
    HashBack(tx.asset, r1);
    BodyBack(tx, r0, r1, r2, r3, r4);
    HeaderRead(tx.version, r0);
  }

  /** Decoding inverts encoding for every coherent transaction that encodes. */
  lemma {:induction false} RoundTrip(tx: Tx)
    requires Fits(tx) && Coherent(tx)
    ensures Encode(tx).Some? && Decode(Encode(tx).value) == Some(tx)
  {
    TxBack(tx);
  }

  lemma {:induction false} HeaderBack(version: nat, rest: Bytes)
    ensures Read(4, MAGIC + ([0, version] + rest)) == Got([0x77, 0x77, 0, version], rest)
  {
    assert MAGIC + ([0, version] + rest) == [0x77, 0x77, 0, version] + rest;
    ReadBack([0x77, 0x77, 0, version], rest);
  }

  lemma {:induction false} HeaderRead(version: nat, rest: Bytes)
    requires 2 <= version <= 4
    ensures ReadTx(MAGIC + ([0, version] + rest)) == ReadBody(version, rest)
  {
    HeaderBack(version, rest);
    var m: Bytes := [0x77, 0x77, 0, version];
    assert m[..3] == [0x77, 0x77, 0];
  }

  /** So no two transactions share an encoding. */
  lemma {:induction false} EncodeInjective(a: Tx, b: Tx)
    requires Fits(a) && Coherent(a) && Fits(b) && Coherent(b) && Encode(a) == Encode(b)
    ensures a == b
  {
    RoundTrip(a);
    RoundTrip(b);
  }
}
