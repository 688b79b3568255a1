/** The UTXO ledger a node keeps in its store: transactions, the locks on what they spend, and
    the steps that lock, persist, prune and finalise them.

    A hash names one transaction (`Book`), which is collision freedom.  Every store
    transaction is one step: it commits all its writes or, on an error, none. */
module Ledger {

  type Hash = nat  // 0 is the empty hash
  type Key = nat
  type Asset = nat
  type Amount = nat

  const XIN: Asset := 1
  const SLICE_COUNT_LIMIT := 256
  const REFERENCES_COUNT_LIMIT := 2

  datatype Result<+T> = Ok(value: T) | Err {
    predicate IsFailure() { Err? }
    function PropagateFailure<U>(): Result<U> requires Err? { Err }
    function Extract(): T requires Ok? { value }
  }

  datatype OutputType =
    | Script | WithdrawalSubmit | WithdrawalFuel | NodePledge | NodeAccept | NodeRemove | DomainAccept
    | DomainRemove | WithdrawalClaim | NodeCancel | CustodianUpdateNodes | CustodianSlashNodes | Other

  datatype MintGroup = Universal | KernelNodeLegacy | UnknownGroup

  datatype Input =
    | Spend(hash: Hash, index: nat)
    | Deposit(unique: Key, deposited: Amount)
    | Mint(group: MintGroup, batch: nat, minted: Amount)
    | Genesis

  /** `plain` says that the output has neither script nor mask, `formatted` that its script
      verifies and its mask has a value. */
  datatype Output = Output(typ: OutputType, amount: Amount, keys: seq<Key>, withdrawal: bool, plain: bool,
                           formatted: bool)

  datatype Transaction = Transaction(version: nat, asset: Asset, inputs: seq<Input>, outputs: seq<Output>,
                                     references: seq<Hash>)

  /** The transaction each hash names. */
  type Book = Hash -> Transaction

  datatype Utxo = Utxo(typ: OutputType, amount: Amount, keys: seq<Key>, asset: Asset, lock: Hash)

  datatype MintLock = MintLock(group: MintGroup, amount: Amount, tx: Hash)

  datatype Store = Store(
    utxos: map<(Hash, nat), Utxo>,
    deposits: map<Key, Hash>,
    mints: map<nat, MintLock>,
    ghosts: map<Key, Hash>,
    txs: set<Hash>,
    finals: map<Hash, Hash>)

  // ----- what a transaction claims, and who owns the claim

  datatype Claim = OnUtxo(hash: Hash, index: nat) | OnDeposit(unique: Key) | OnMint(batch: nat)

  predicate Claims(tx: Transaction, c: Claim) {
    match c
    case OnUtxo(h, i) => Spend(h, i) in tx.inputs
    case OnDeposit(k) => exists d <- tx.inputs :: d.Deposit? && d.unique == k
    case OnMint(b) => exists m <- tx.inputs :: m.Mint? && m.batch == b
  }

  function Owner(s: Store, c: Claim): Hash {
    match c
    case OnUtxo(h, i) => if (h, i) in s.utxos then s.utxos[(h, i)].lock else 0
    case OnDeposit(k) => if k in s.deposits then s.deposits[k] else 0
    case OnMint(b) => if b in s.mints then s.mints[b].tx else 0
  }

  ghost predicate HoldsClaims(s: Store, tx: Transaction, h: Hash) {
    forall c: Claim | Claims(tx, c) :: Owner(s, c) == h
  }

  // ----- transaction kinds

  datatype TxType =
    | TxScript | TxMint | TxDeposit | TxWithdrawalSubmit | TxWithdrawalFuel | TxWithdrawalClaim | TxNodePledge
    | TxNodeAccept | TxNodeRemove | TxDomainAccept | TxDomainRemove | TxNodeCancel | TxCustodianUpdate
    | TxCustodianSlash | TxUnknown

  function SpecialType(t: OutputType): Result<TxType> {
    match t
    case WithdrawalSubmit => Ok(TxWithdrawalSubmit)
    case WithdrawalFuel => Ok(TxWithdrawalFuel)
    case WithdrawalClaim => Ok(TxWithdrawalClaim)
    case NodePledge => Ok(TxNodePledge)
    case NodeCancel => Ok(TxNodeCancel)
    case NodeAccept => Ok(TxNodeAccept)
    case NodeRemove => Ok(TxNodeRemove)
    case CustodianUpdateNodes => Ok(TxCustodianUpdate)
    case CustodianSlashNodes => Ok(TxCustodianSlash)
    case DomainAccept => Ok(TxDomainAccept)
    case DomainRemove => Ok(TxDomainRemove)
    case _ => Err
  }

  function InputsType(ins: seq<Input>): Result<TxType> {
    if ins == [] then Err
    else if ins[0].Mint? then Ok(TxMint)
    else if ins[0].Deposit? then Ok(TxDeposit)
    else if ins[0].Genesis? then Ok(TxUnknown)
    else InputsType(ins[1..])
  }

  function OutputsType(outs: seq<Output>): TxType {
    if outs == [] then TxScript
    else
      var t := SpecialType(outs[0].typ);
      if t.Ok? then t.value
      else
        var rest := OutputsType(outs[1..]);
        if rest == TxScript && outs[0].typ != Script then TxUnknown else rest
  }

  function TypeOf(tx: Transaction): TxType {
    var t := InputsType(tx.inputs);
    if t.Ok? then t.value else OutputsType(tx.outputs)
  }

  // ----- the steps, as functions on the store

  function Prune(s: Store, h: Hash): Result<Store> {
    if h in s.finals then Err else Ok(s.(txs := s.txs - {h}))
  }

  function LockUtxo(s: Store, hash: Hash, index: nat, tx: Hash, fork: bool): Result<Store> {
    if (hash, index) !in s.utxos then Err
    else
      var out := s.utxos[(hash, index)];
      if out.lock != 0 && out.lock != tx then
        if !fork then Err
        else
          var p :- Prune(s, out.lock);
          Ok(p.(utxos := p.utxos[(hash, index) := out.(lock := tx)]))
      else Ok(s.(utxos := s.utxos[(hash, index) := out.(lock := tx)]))
  }

  function LockUtxos(s: Store, ins: seq<Input>, tx: Hash, fork: bool): Result<Store> {
    if ins == [] then Ok(s)
    else
      var p :- LockUtxos(s, ins[..|ins| - 1], tx, fork);
      var last := ins[|ins| - 1];
      if last.Spend? then LockUtxo(p, last.hash, last.index, tx, fork) else Err
  }

  function LockDeposit(s: Store, unique: Key, tx: Hash, fork: bool): Result<Store> {
    if unique !in s.deposits then Ok(s.(deposits := s.deposits[unique := tx]))
    else if s.deposits[unique] == tx then Ok(s)
    else if !fork then Err
    else
      var p :- Prune(s, s.deposits[unique]);
      Ok(p.(deposits := p.deposits[unique := tx]))
  }

  function LockMint(s: Store, mint: Input, tx: Hash, fork: bool): Result<Store>
    requires mint.Mint?
  {
    var entry := MintLock(mint.group, mint.minted, tx);
    if mint.batch !in s.mints then Ok(s.(mints := s.mints[mint.batch := entry]))
    else if s.mints[mint.batch].tx == tx && s.mints[mint.batch].amount == mint.minted then Ok(s)
    else if !fork then Err
    else
      var p :- Prune(s, s.mints[mint.batch].tx);
      Ok(p.(mints := p.mints[mint.batch := entry]))
  }

  /** Mint and deposit transactions lock their first input, all others every input. */
  function LockInputs(s: Store, tx: Transaction, h: Hash, fork: bool): Result<Store> {
    if TypeOf(tx).TxMint? then
      if tx.inputs != [] && tx.inputs[0].Mint? then LockMint(s, tx.inputs[0], h, fork) else Err
    else if TypeOf(tx).TxDeposit? then
      if tx.inputs != [] && tx.inputs[0].Deposit? then LockDeposit(s, tx.inputs[0].unique, h, fork) else Err
    else LockUtxos(s, tx.inputs, h, fork)
  }

  function LockGhost(ghosts: map<Key, Hash>, k: Key, tx: Hash): Result<map<Key, Hash>> {
    if k !in ghosts then Ok(ghosts[k := tx])
    else if ghosts[k] == tx then Ok(ghosts)
    else Err
  }

  /** Ghost keys are never taken from another transaction, whatever `fork` says. */
  function LockGhosts(ghosts: map<Key, Hash>, keys: seq<Key>, tx: Hash): Result<map<Key, Hash>> {
    if keys == [] then Ok(ghosts)
    else
      var p :- LockGhosts(ghosts, keys[..|keys| - 1], tx);
      LockGhost(p, keys[|keys| - 1], tx)
  }

  predicate HoldsInput(s: Store, i: Input, h: Hash) {
    match i
    case Spend(hash, index) => (hash, index) in s.utxos && s.utxos[(hash, index)].lock == h
    case Deposit(k, _) => k in s.deposits && s.deposits[k] == h
    case Mint(_, b, a) => b in s.mints && s.mints[b].tx == h && s.mints[b].amount == a
    case Genesis => true
  }

  /** Persisting asserts that every input is locked for the transaction. */
  function Write(s: Store, tx: Transaction, h: Hash): Result<Store> {
    if forall i <- tx.inputs :: HoldsInput(s, i, h) then Ok(s.(txs := s.txs + {h})) else Err
  }

  predicate Spendable(t: OutputType) {
    match t
    case Script => true
    case NodePledge => true
    case NodeCancel => true
    case NodeAccept => true
    case NodeRemove => true
    case DomainAccept => true
    case WithdrawalFuel => true
    case WithdrawalClaim => true
    case CustodianUpdateNodes => true
    case _ => false
  }

  /** Output types `UnspentOutputs` knows; it panics on any other. */
  predicate Known(t: OutputType) {
    Spendable(t) || t == WithdrawalSubmit || t == CustodianSlashNodes
  }

  function WriteUtxo(s: Store, tx: Transaction, h: Hash, i: nat): Result<Store>
    requires i < |tx.outputs|
  {
    var o := tx.outputs[i];
    if !Known(o.typ) then Err
    else if !Spendable(o.typ) then Ok(s)
    else
      var g :- LockGhosts(s.ghosts, o.keys, h);
      Ok(s.(ghosts := g, utxos := s.utxos[(h, i) := Utxo(o.typ, o.amount, o.keys, tx.asset, 0)]))
  }

  function WriteUtxos(s: Store, tx: Transaction, h: Hash, n: nat): Result<Store>
    requires n <= |tx.outputs|
  {
    if n == 0 then Ok(s)
    else
      var p :- WriteUtxos(s, tx, h, n - 1);
      WriteUtxo(p, tx, h, n - 1)
  }

  /** Only the first finalisation of a transaction writes anything. */
  function Finalize(s: Store, tx: Transaction, h: Hash, snapshot: Hash): Result<Store> {
    if h in s.finals then Ok(s)
    else WriteUtxos(s.(finals := s.finals[h := snapshot]), tx, h, |tx.outputs|)
  }

  /** Writing a snapshot asserts that its transaction is persisted. */
  function WriteSnapshot(s: Store, tx: Transaction, h: Hash, snapshot: Hash): Result<Store> {
    if h !in s.txs then Err else Finalize(s, tx, h, snapshot)
  }

  function LoadGenesis(s: Store, tx: Transaction, h: Hash, snapshot: Hash): Result<Store> {
    if tx.inputs != [Genesis] then Err else Finalize(s.(txs := s.txs + {h}), tx, h, snapshot)
  }

  // ----- validation

  /** What `validateInputs` has gathered: the outpoints seen, the outputs they spend and their
      total.  A mint or deposit input ends the scan with its own amount. */
  datatype Scan = Scan(seen: set<(Hash, nat)>, spent: seq<Utxo>, amount: Amount, done: bool)

  predicate Usable(typ: OutputType, t: TxType) {
    match typ
    case Script => true
    case NodeRemove => true
    case NodePledge => t.TxNodeAccept? || t.TxNodeCancel?
    case NodeAccept => t.TxNodeRemove?
    case _ => false
  }

  function ScanInput(s: Store, tx: Transaction, h: Hash, fork: bool, p: Scan, i: Input): Result<Scan> {
    match i
    case Mint(_, _, a) => Ok(p.(amount := a, done := true))
    case Deposit(_, a) => Ok(p.(amount := a, done := true))
    case Genesis => Err
    case Spend(hash, index) =>
      var k := (hash, index);
      if k in p.seen || k !in s.utxos || s.utxos[k].asset != tx.asset then Err
      else if s.utxos[k].lock != 0 && s.utxos[k].lock != h && !fork then Err
      else if !Usable(s.utxos[k].typ, TypeOf(tx)) then Err
      else Ok(Scan(p.seen + {k}, p.spent + [s.utxos[k]], p.amount + s.utxos[k].amount, false))
  }

  function ScanInputs(s: Store, tx: Transaction, h: Hash, fork: bool, n: nat): Result<Scan>
    requires n <= |tx.inputs|
  {
    if n == 0 then Ok(Scan({}, [], 0, false))
    else
      var p :- ScanInputs(s, tx, h, fork, n - 1);
      if p.done then Ok(p) else ScanInput(s, tx, h, fork, p, tx.inputs[n - 1])
  }

  /** The keys of the outputs so far and their total. */
  datatype Tally = Tally(keys: seq<Key>, amount: Amount)

  predicate KernelOnly(t: OutputType) {
    t in {WithdrawalSubmit, WithdrawalFuel, WithdrawalClaim, NodePledge, NodeCancel, NodeAccept}
  }

  predicate Distinct(keys: seq<Key>) {
    forall i, j | 0 <= i < j < |keys| :: keys[i] != keys[j]
  }

  function TallyOutput(p: Tally, o: Output): Result<Tally> {
    if |o.keys| > SLICE_COUNT_LIMIT || o.amount == 0 then Err
    else if o.withdrawal then Ok(p.(amount := p.amount + o.amount))
    else if !Distinct(p.keys + o.keys) then Err
    else if KernelOnly(o.typ) && (o.keys != [] || !o.plain) then Err
    else if !KernelOnly(o.typ) && !o.formatted then Err
    else Ok(Tally(p.keys + o.keys, p.amount + o.amount))
  }

  function TallyOutputs(outs: seq<Output>): Result<Tally> {
    if outs == [] then Ok(Tally([], 0))
    else
      var p :- TallyOutputs(outs[..|outs| - 1]);
      TallyOutput(p, outs[|outs| - 1])
  }

  predicate AllOutputs(tx: Transaction, t: OutputType) {
    forall o <- tx.outputs :: o.typ == t
  }

  predicate AllSpent(scan: Scan, ts: set<OutputType>) {
    forall u <- scan.spent :: u.typ in ts
  }

  /** One special output, optionally followed by script change. */
  predicate WithChange(tx: Transaction, t: OutputType) {
    1 <= |tx.outputs| <= 2 && tx.outputs[0].typ == t && (|tx.outputs| == 2 ==> tx.outputs[1].typ == Script)
  }

  predicate FinalMint(s: Store, b: nat) {
    b in s.mints && s.mints[b].tx in s.finals
  }

  /** A mint goes beyond the last finalised batch, or is that very mint, and never returns to
      the legacy group. */
  predicate MintChecks(s: Store, mint: Input, h: Hash)
    requires mint.Mint?
  {
    && !mint.group.UnknownGroup?
    && (forall b <- s.mints :: FinalMint(s, b) ==> b <= mint.batch)
    && (mint.group.KernelNodeLegacy? ==>
          forall b <- s.mints :: FinalMint(s, b) && (forall c <- s.mints :: FinalMint(s, c) ==> c <= b) ==>
              !s.mints[b].group.Universal?)
    && (if FinalMint(s, mint.batch) then s.mints[mint.batch].tx == h && s.mints[mint.batch].amount == mint.minted
        else mint.batch > 0)
  }

  /** Verdicts this model takes as given: `signed` for the signatures and sizes checked before
      the outputs are looked at, `agreed` for the address, node list and custodian checks of
      the per-type validation after that. */
  datatype Checks = Checks(signed: bool, agreed: bool)

  /** The structural part of each per-type validation. */
  predicate TypeChecks(s: Store, tx: Transaction, h: Hash, scan: Scan, agreed: bool) {
    agreed &&
    match TypeOf(tx)
    case TxScript => AllSpent(scan, {Script, NodeRemove})
    case TxMint =>
      && |tx.inputs| == 1 && AllOutputs(tx, Script) && tx.asset == XIN
      && tx.inputs[0].Mint? && MintChecks(s, tx.inputs[0], h)
    case TxDeposit =>
      && |tx.inputs| == 1 && |tx.outputs| == 1 && AllOutputs(tx, Script)
      && tx.inputs[0].Deposit? && tx.inputs[0].deposited > 0
      && (tx.inputs[0].unique in s.deposits ==> s.deposits[tx.inputs[0].unique] == h)
    case TxWithdrawalSubmit =>
      AllSpent(scan, {Script}) && WithChange(tx, WithdrawalSubmit) && tx.outputs[0].withdrawal
    case TxWithdrawalFuel => AllSpent(scan, {Script}) && WithChange(tx, WithdrawalFuel)
    case TxWithdrawalClaim => AllSpent(scan, {Script}) && WithChange(tx, WithdrawalClaim) && tx.asset == XIN
    case TxNodePledge => AllSpent(scan, {Script}) && |tx.outputs| == 1 && tx.asset == XIN
    case TxNodeCancel =>
      && |tx.inputs| == 1 && |tx.outputs| == 2 && tx.asset == XIN
      && tx.outputs[0].typ == NodeCancel && tx.outputs[1].typ == Script
    case TxNodeAccept => |tx.inputs| == 1 && |tx.outputs| == 1 && tx.asset == XIN
    case TxNodeRemove => |tx.inputs| == 1 && |tx.outputs| == 1 && tx.asset == XIN
    case TxCustodianUpdate =>
      tx.version == 4 && |tx.outputs| == 1 && tx.asset == XIN && tx.outputs[0].typ == CustodianUpdateNodes
    case _ => false
  }

  predicate ShapeChecks(s: Store, tx: Transaction) {
    && 2 <= tx.version <= 4
    && (tx.version < 4 ==> tx.references == [])
    && !TypeOf(tx).TxUnknown?
    && 1 <= |tx.inputs| <= SLICE_COUNT_LIMIT && 1 <= |tx.outputs| <= SLICE_COUNT_LIMIT
    && |tx.references| <= REFERENCES_COUNT_LIMIT
    && (forall r <- tx.references :: (r, 0) in s.utxos)
  }

  /** The verdict on a transaction and the store afterwards: its ghost keys stay locked even
      when a later check fails. */
  function Validate(s: Store, tx: Transaction, h: Hash, fork: bool, checks: Checks): (r: (bool, Store)) {
    if !ShapeChecks(s, tx) then (false, s)
    else
      var scan := ScanInputs(s, tx, h, fork, |tx.inputs|);
      var tally := TallyOutputs(tx.outputs);
      if !checks.signed || scan.Err? || tally.Err? then (false, s)
      else
        var ghosts := LockGhosts(s.ghosts, tally.value.keys, h);
        if ghosts.Err? then (false, s)
        else
          var ok := scan.value.amount > 0 && scan.value.amount == tally.value.amount;
          (ok && TypeChecks(s, tx, h, scan.value, checks.agreed), s.(ghosts := ghosts.value))
  }
}
