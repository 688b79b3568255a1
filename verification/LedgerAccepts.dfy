/** Exactly which transactions validation accepts, and which ghost keys it leaves locked, in terms of
    the transaction and the store alone. */
module LedgerAccepts {
  import opened Ledger
  import opened LedgerSafety
  import opened LedgerFinality

  // ----- the eleven kinds that can be accepted

  datatype Kind =
    | Transfer | Minting | Depositing | Submitting | Fuelling | Claiming | Pledging | Cancelling | Accepting | Removing
    | Entrusting

  ghost predicate Spending(tx: Transaction) {
    forall i <- tx.inputs :: i.Spend?
  }

  ghost predicate ScriptFrom(tx: Transaction, n: nat) {
    forall i | n <= i < |tx.outputs| :: tx.outputs[i].typ == Script
  }

  /** One output of type `t` and at most one more, of type script. */
  ghost predicate Led(tx: Transaction, t: OutputType) {
    Spending(tx) && 1 <= |tx.outputs| <= 2 && tx.outputs[0].typ == t && ScriptFrom(tx, 1)
  }

  ghost predicate Lone(tx: Transaction, t: OutputType) {
    Spending(tx) && |tx.outputs| == 1 && tx.outputs[0].typ == t && tx.asset == XIN
  }

  /** The inputs and outputs of each kind. */
  ghost predicate Shaped(tx: Transaction, k: Kind) {
    match k
    case Transfer => Spending(tx) && ScriptFrom(tx, 0)
    case Minting => |tx.inputs| == 1 && tx.inputs[0].Mint? && ScriptFrom(tx, 0) && tx.asset == XIN
    case Depositing => |tx.inputs| == 1 && tx.inputs[0].Deposit? && |tx.outputs| == 1 && ScriptFrom(tx, 0)
    case Submitting => Led(tx, WithdrawalSubmit) && tx.outputs[0].withdrawal
    case Fuelling => Led(tx, WithdrawalFuel)
    case Claiming => Led(tx, WithdrawalClaim) && tx.asset == XIN
    case Pledging => Lone(tx, NodePledge)
    case Cancelling => Led(tx, NodeCancel) && |tx.outputs| == 2 && |tx.inputs| == 1 && tx.asset == XIN
    case Accepting => Lone(tx, NodeAccept) && |tx.inputs| == 1
    case Removing => Lone(tx, NodeRemove) && |tx.inputs| == 1
    case Entrusting => Lone(tx, CustodianUpdateNodes) && tx.version == 4
  }

  /** The outputs each kind may spend. */
  function Sources(k: Kind): set<OutputType> {
    match k
    case Transfer => {Script, NodeRemove}
    case Cancelling => {Script, NodeRemove, NodePledge}
    case Accepting => {Script, NodeRemove, NodePledge}
    case Removing => {Script, NodeRemove, NodeAccept}
    case Entrusting => {Script, NodeRemove}
    case _ => {Script}
  }

  // ----- what all kinds have in common

  ghost predicate Sized(s: Store, tx: Transaction) {
    && (tx.version == 2 || tx.version == 3 || tx.version == 4) && (tx.references != [] ==> tx.version == 4)
    && 1 <= |tx.inputs| <= 256 && 1 <= |tx.outputs| <= 256 && |tx.references| <= 2
    && (forall r <- tx.references :: (r, 0) in s.utxos)
  }

  /** Outputs of the kernel's own carry neither keys nor script, all others a script; those with
      withdrawal data are not looked at. */
  ghost predicate OutputFits(o: Output) {
    && |o.keys| <= 256 && o.amount > 0
    && (!o.withdrawal ==>
          match o.typ
          case WithdrawalSubmit => o.keys == [] && o.plain
          case WithdrawalFuel => o.keys == [] && o.plain
          case WithdrawalClaim => o.keys == [] && o.plain
          case NodePledge => o.keys == [] && o.plain
          case NodeCancel => o.keys == [] && o.plain
          case NodeAccept => o.keys == [] && o.plain
          case _ => o.formatted)
  }

  /** No key occurs twice outside of outputs with withdrawal data. */
  ghost predicate NoRepeat(outs: seq<Output>) {
    && (forall o <- outs | !o.withdrawal :: forall a, b | 0 <= a < b < |o.keys| :: o.keys[a] != o.keys[b])
    && (forall i, j | 0 <= i < j < |outs| && !outs[i].withdrawal && !outs[j].withdrawal ::
          forall k <- outs[i].keys :: k !in outs[j].keys)
  }

  ghost predicate KeysFree(ghosts: map<Key, Hash>, outs: seq<Output>, h: Hash) {
    forall o <- outs | !o.withdrawal :: forall k <- o.keys :: k in ghosts ==> ghosts[k] == h
  }

  ghost predicate OutputsPass(s: Store, tx: Transaction, h: Hash) {
    (forall o <- tx.outputs :: OutputFits(o)) && NoRepeat(tx.outputs) && KeysFree(s.ghosts, tx.outputs, h)
  }

  // ----- what each kind consumes

  ghost predicate CanSpend(s: Store, asset: Asset, i: Input, h: Hash, fork: bool, from: set<OutputType>) {
    && i.Spend? && (i.hash, i.index) in s.utxos
    && var u := s.utxos[(i.hash, i.index)];
       u.asset == asset && u.typ in from && (u.lock == 0 || u.lock == h || fork)
  }

  ghost predicate SpendsFrom(s: Store, tx: Transaction, h: Hash, fork: bool, from: set<OutputType>) {
    && (forall i, j | 0 <= i < j < |tx.inputs| :: tx.inputs[i] != tx.inputs[j])
    && (forall i <- tx.inputs :: CanSpend(s, tx.asset, i, h, fork, from))
  }

  /** A batch is new if it lies beyond all final ones; a final one can only be validated again as it
      is recorded. */
  ghost predicate MintOpen(s: Store, m: Input, h: Hash)
    requires m.Mint?
  {
    && !m.group.UnknownGroup? && (m.batch == 0 ==> 0 in s.mints && s.mints[0].tx in s.finals)
    && (forall b <- s.mints | s.mints[b].tx in s.finals ::
          && b <= m.batch && (b == m.batch ==> s.mints[b].tx == h && s.mints[b].amount == m.minted))
    && (m.group.KernelNodeLegacy? ==>
          forall b <- s.mints | s.mints[b].tx in s.finals && s.mints[b].group.Universal? ::
            exists c <- s.mints :: s.mints[c].tx in s.finals && c > b)
  }

  ghost predicate Funded(s: Store, tx: Transaction, h: Hash, fork: bool, k: Kind)
    requires Shaped(tx, k)
  {
    match k
    case Minting => tx.inputs[0].minted == OutputSum(tx.outputs) && MintOpen(s, tx.inputs[0], h)
    case Depositing =>
      && tx.inputs[0].deposited == OutputSum(tx.outputs)
      && (tx.inputs[0].unique in s.deposits ==> s.deposits[tx.inputs[0].unique] == h)
    case _ => InputSum(s, tx.inputs) == OutputSum(tx.outputs) && SpendsFrom(s, tx, h, fork, Sources(k))
  }

  // ----- the scan of the inputs

  ghost function UsableBy(t: TxType): set<OutputType> {
    match t
    case TxNodeAccept => {Script, NodeRemove, NodePledge}
    case TxNodeCancel => {Script, NodeRemove, NodePledge}
    case TxNodeRemove => {Script, NodeRemove, NodeAccept}
    case _ => {Script, NodeRemove}
  }

  ghost predicate Scanned(s: Store, tx: Transaction, h: Hash, fork: bool, n: nat)
    requires n <= |tx.inputs|
  {
    && (forall i, j | 0 <= i < j < n :: tx.inputs[i] != tx.inputs[j])
    && (forall i | 0 <= i < n :: CanSpend(s, tx.asset, tx.inputs[i], h, fork, UsableBy(TypeOf(tx))))
  }

  lemma {:induction false} ScanIff(s: Store, tx: Transaction, h: Hash, fork: bool, n: nat)
    requires n <= |tx.inputs| && Spending(tx)
    ensures ScanInputs(s, tx, h, fork, n).Ok? <==> Scanned(s, tx, h, fork, n)
    ensures ScanInputs(s, tx, h, fork, n).Ok? ==>
              var p := ScanInputs(s, tx, h, fork, n).value;
              && !p.done && p.amount == InputSum(s, tx.inputs[..n])
              && |p.spent| == n
              && forall i | 0 <= i < n :: p.spent[i] == s.utxos[(tx.inputs[i].hash, tx.inputs[i].index)]
  {
    if n > 0 {
      ScanIff(s, tx, h, fork, n - 1);
      if ScanInputs(s, tx, h, fork, n - 1).Ok? {
        ScanStep(s, tx, h, fork, n);
      }
    }
  }

  lemma {:induction false} ScanStep(s: Store, tx: Transaction, h: Hash, fork: bool, n: nat)
    requires 0 < n <= |tx.inputs| && Spending(tx)
    requires Scanned(s, tx, h, fork, n - 1) && ScanInputs(s, tx, h, fork, n - 1).Ok?
    requires var p := ScanInputs(s, tx, h, fork, n - 1).value;
             && !p.done && p.amount == InputSum(s, tx.inputs[..n - 1]) && |p.spent| == n - 1
    ensures ScanInputs(s, tx, h, fork, n).Ok? <==> Scanned(s, tx, h, fork, n)
    ensures ScanInputs(s, tx, h, fork, n).Ok? ==>
              var p, q := ScanInputs(s, tx, h, fork, n - 1).value, ScanInputs(s, tx, h, fork, n).value;
              && !q.done && q.amount == InputSum(s, tx.inputs[..n])
              && q.spent == p.spent + [s.utxos[(tx.inputs[n - 1].hash, tx.inputs[n - 1].index)]]
  {
    var pre, last := tx.inputs[..n - 1], tx.inputs[n - 1];
    assert last in tx.inputs;
    ScanMeaning(s, tx, h, fork, n - 1);
    assert tx.inputs[..n][..n - 1] == pre;
    assert (last.hash, last.index) in ScanInputs(s, tx, h, fork, n - 1).value.seen <==> last in pre;
    assert last in pre <==> exists i | 0 <= i < n - 1 :: tx.inputs[i] == last;
    if (last.hash, last.index) in s.utxos {
      UsableIs(s.utxos[(last.hash, last.index)].typ, TypeOf(tx));
    }
  }

  lemma {:induction false} UsableIs(typ: OutputType, t: TxType)
    ensures Usable(typ, t) <==> typ in UsableBy(t)
  {
  }

  // ----- the tally of the outputs

  ghost predicate InSome(outs: seq<Output>, k: Key) {
    exists o <- outs :: !o.withdrawal && k in o.keys
  }

  lemma {:induction false} DistinctAppend(a: seq<Key>, b: seq<Key>)
    requires Distinct(a)
    ensures Distinct(a + b) <==>
            (forall i, j | 0 <= i < j < |b| :: b[i] != b[j]) && forall k <- a :: k !in b
  {
    var c := a + b;
    if Distinct(c) {
      forall i, j | 0 <= i < j < |b|
        ensures b[i] != b[j]
      {
        assert c[|a| + i] == b[i] && c[|a| + j] == b[j];
      }
      forall k <- a
        ensures k !in b
      {
        var i :| 0 <= i < |a| && a[i] == k;
        assert c[i] == k;
        forall j | 0 <= j < |b|
          ensures b[j] != k
        {
          assert c[|a| + j] == b[j];
        }
      }
    }
    if (forall i, j | 0 <= i < j < |b| :: b[i] != b[j]) && forall k <- a :: k !in b {
      forall i, j | 0 <= i < j < |c|
        ensures c[i] != c[j]
      {
        assert i < |a| ==> a[i] in a;
        assert j >= |a| ==> b[j - |a|] in b;
      }
    }
  }

  lemma {:induction false} NoRepeatAppend(outs: seq<Output>, o: Output)
    ensures NoRepeat(outs + [o]) <==>
            NoRepeat(outs) && (!o.withdrawal ==>
              (forall a, b | 0 <= a < b < |o.keys| :: o.keys[a] != o.keys[b]) && forall k <- o.keys :: !InSome(outs, k))
  {
    var all, n := outs + [o], |outs|;
    assert forall i | 0 <= i < n :: all[i] == outs[i];
    assert forall p :: p in all <==> p in outs || p == o;
    if NoRepeat(all) && !o.withdrawal {
      assert all[n] == o;
      forall k <- o.keys
        ensures !InSome(outs, k)
      {
        forall p <- outs | !p.withdrawal
          ensures k !in p.keys
        {
          var i :| 0 <= i < n && outs[i] == p;
          assert all[i] == p;
        }
      }
    }
  }

  lemma {:induction false} TallyIff(outs: seq<Output>)
    ensures TallyOutputs(outs).Ok? <==> (forall o <- outs :: OutputFits(o)) && NoRepeat(outs)
    ensures TallyOutputs(outs).Ok? ==>
              && TallyOutputs(outs).value.amount == OutputSum(outs)
              && (forall k :: k in TallyOutputs(outs).value.keys <==> InSome(outs, k))
    decreases |outs|
  {
    if outs != [] {
      var pre, last := outs[..|outs| - 1], outs[|outs| - 1];
      assert outs == pre + [last];
      TallyIff(pre);
      NoRepeatAppend(pre, last);
      if TallyOutputs(pre).Ok? {
        TallyMeaning(pre);
        DistinctAppend(TallyOutputs(pre).value.keys, last.keys);
        TallyStep(pre, last);
      }
    }
  }

  lemma {:induction false} TallyStep(pre: seq<Output>, last: Output)
    requires TallyOutputs(pre).Ok? && Distinct(TallyOutputs(pre).value.keys)
    requires forall k :: k in TallyOutputs(pre).value.keys <==> InSome(pre, k)
    requires var p := TallyOutputs(pre).value.keys;
             Distinct(p + last.keys) <==>
             (forall i, j | 0 <= i < j < |last.keys| :: last.keys[i] != last.keys[j]) &&
             forall k <- p :: k !in last.keys
    ensures var t := TallyOutput(TallyOutputs(pre).value, last);
            && (t.Ok? <==> OutputFits(last) && (!last.withdrawal ==>
                  (forall a, b | 0 <= a < b < |last.keys| :: last.keys[a] != last.keys[b]) &&
                  forall k <- last.keys :: !InSome(pre, k)))
            && (t.Ok? ==>
                  && t.value.amount == TallyOutputs(pre).value.amount + last.amount
                  && forall k :: k in t.value.keys <==> InSome(pre + [last], k))
  {
    var p := TallyOutputs(pre).value.keys;
    assert forall q :: q in pre + [last] <==> q in pre || q == last;
    assert (forall k <- p :: k !in last.keys) <==> (forall k <- last.keys :: !InSome(pre, k));
    assert forall k :: k in p + last.keys <==> k in p || k in last.keys;
  }

  // ----- the kind of a transaction

  function TypeOfKind(k: Kind): TxType {
    match k
    case Transfer => TxScript
    case Minting => TxMint
    case Depositing => TxDeposit
    case Submitting => TxWithdrawalSubmit
    case Fuelling => TxWithdrawalFuel
    case Claiming => TxWithdrawalClaim
    case Pledging => TxNodePledge
    case Cancelling => TxNodeCancel
    case Accepting => TxNodeAccept
    case Removing => TxNodeRemove
    case Entrusting => TxCustodianUpdate
  }

  lemma {:induction false} AllScripts(outs: seq<Output>)
    requires forall i | 0 <= i < |outs| :: outs[i].typ == Script
    ensures OutputsType(outs) == TxScript
  {
    if outs != [] {
      AllScripts(outs[1..]);
    }
  }

  lemma {:induction false} ShapeType(tx: Transaction, k: Kind)
    requires Shaped(tx, k) && tx.outputs != []
    ensures TypeOf(tx) == TypeOfKind(k)
  {
    InputsTypeMeaning(tx.inputs);
    if k.Transfer? {
      AllScripts(tx.outputs);
    }
  }

  lemma {:induction false} TypeShape(s: Store, tx: Transaction, h: Hash, scan: Scan) returns (k: Kind)
    requires !TypeOf(tx).TxUnknown? && TypeChecks(s, tx, h, scan, true) && tx.outputs != []
    ensures Shaped(tx, k) && TypeOf(tx) == TypeOfKind(k)
  {
    TypeMeaning(tx);
    if |tx.outputs| == 1 && TypeOf(tx) !in {TxMint, TxDeposit} {
      SingleOutputType(tx);
    }
    forall i | 0 <= i < |tx.outputs|
      ensures tx.outputs[i] in tx.outputs
    {
    }
    k := match TypeOf(tx) {
      case TxMint => Minting
      case TxDeposit => Depositing
      case TxWithdrawalSubmit => Submitting
      case TxWithdrawalFuel => Fuelling
      case TxWithdrawalClaim => Claiming
      case TxNodePledge => Pledging
      case TxNodeCancel => Cancelling
      case TxNodeAccept => Accepting
      case TxNodeRemove => Removing
      case TxCustodianUpdate => Entrusting
      case _ => Transfer
    };
  }

  // ----- accepted if and only if

  ghost predicate Accepts(s: Store, tx: Transaction, h: Hash, fork: bool, checks: Checks, k: Kind)
    requires Shaped(tx, k)
  {
    Sized(s, tx) && OutputsPass(s, tx, h) && Funded(s, tx, h, fork, k) && checks.signed && checks.agreed
  }

  lemma {:induction false} SizedIs(s: Store, tx: Transaction)
    ensures ShapeChecks(s, tx) <==> Sized(s, tx) && !TypeOf(tx).TxUnknown?
  {
  }

  lemma {:induction false} FreeIs(s: Store, tx: Transaction, h: Hash)
    requires TallyOutputs(tx.outputs).Ok?
    ensures LockGhosts(s.ghosts, TallyOutputs(tx.outputs).value.keys, h).Ok? <==> KeysFree(s.ghosts, tx.outputs, h)
  {
    var keys := TallyOutputs(tx.outputs).value.keys;
    TallyIff(tx.outputs);
    LockGhostsIff(s.ghosts, keys, h);
    if KeysFree(s.ghosts, tx.outputs, h) {
      forall k <- keys
        ensures Free(s.ghosts, k, h)
      {
        assert InSome(tx.outputs, k);
      }
    } else {
      var o :| o in tx.outputs && !o.withdrawal && exists k <- o.keys :: !Free(s.ghosts, k, h);
      var k :| k in o.keys && !Free(s.ghosts, k, h);
      assert InSome(tx.outputs, k);
    }
  }

  /** Sums are positive because every output is. */
  lemma {:induction false} SumPositive(outs: seq<Output>)
    requires outs != [] && forall o <- outs :: OutputFits(o)
    ensures OutputSum(outs) > 0
  {
    assert outs[|outs| - 1] in outs;
  }

  lemma {:induction false} MintIff(s: Store, m: Input, h: Hash)
    requires m.Mint?
    ensures MintChecks(s, m, h) <==> MintOpen(s, m, h)
  {
  }

  lemma {:induction false} ScanOfSpends(s: Store, tx: Transaction, h: Hash, fork: bool)
    requires Spending(tx)
    ensures var scan := ScanInputs(s, tx, h, fork, |tx.inputs|);
            && (scan.Ok? <==> SpendsFrom(s, tx, h, fork, UsableBy(TypeOf(tx))))
            && (scan.Ok? ==> scan.value.amount == InputSum(s, tx.inputs))
            && (scan.Ok? ==> forall ts :: AllSpent(scan.value, ts) <==>
                  forall i <- tx.inputs :: s.utxos[(i.hash, i.index)].typ in ts)
  {
    var n := |tx.inputs|;
    var scan := ScanInputs(s, tx, h, fork, n);
    ScanIff(s, tx, h, fork, n);
    assert tx.inputs[..n] == tx.inputs;
    assert Scanned(s, tx, h, fork, n) <==> SpendsFrom(s, tx, h, fork, UsableBy(TypeOf(tx))) by {
      assert forall i | 0 <= i < n :: tx.inputs[i] in tx.inputs;
    }
    if scan.Ok? {
      SpentTypes(s, tx, scan.value);
    }
  }

  /** The scan and the sums of each kind. */
  lemma {:induction false} ScanOfKind(s: Store, tx: Transaction, h: Hash, fork: bool, k: Kind)
    requires Shaped(tx, k) && tx.outputs != [] && tx.inputs != []
    ensures var scan := ScanInputs(s, tx, h, fork, |tx.inputs|);
            match k
            case Minting => scan == Ok(Scan({}, [], tx.inputs[0].minted, true))
            case Depositing => scan == Ok(Scan({}, [], tx.inputs[0].deposited, true))
            case _ =>
              && (scan.Ok? <==> SpendsFrom(s, tx, h, fork, UsableBy(TypeOfKind(k))))
              && (scan.Ok? ==> scan.value.amount == InputSum(s, tx.inputs))
              && (scan.Ok? ==> forall ts :: AllSpent(scan.value, ts) <==>
                    forall i <- tx.inputs :: s.utxos[(i.hash, i.index)].typ in ts)
  {
    ShapeType(tx, k);
    if k.Minting? || k.Depositing? {
      assert ScanInputs(s, tx, h, fork, 0) == Ok(Scan({}, [], 0, false));
      assert ScanInputs(s, tx, h, fork, 1) == ScanInput(s, tx, h, fork, Scan({}, [], 0, false), tx.inputs[0]);
    } else {
      ScanOfSpends(s, tx, h, fork);
    }
  }

  lemma {:induction false} SpentTypes(s: Store, tx: Transaction, scan: Scan)
    requires |scan.spent| == |tx.inputs| && Spending(tx)
    requires forall i <- tx.inputs :: (i.hash, i.index) in s.utxos
    requires forall i | 0 <= i < |tx.inputs| :: scan.spent[i] == s.utxos[(tx.inputs[i].hash, tx.inputs[i].index)]
    ensures forall ts :: AllSpent(scan, ts) <==> forall i <- tx.inputs :: s.utxos[(i.hash, i.index)].typ in ts
  {
    forall ts
      ensures AllSpent(scan, ts) <==> forall i <- tx.inputs :: s.utxos[(i.hash, i.index)].typ in ts
    {
      if AllSpent(scan, ts) {
        forall i <- tx.inputs
          ensures s.utxos[(i.hash, i.index)].typ in ts
        {
          var n :| 0 <= n < |tx.inputs| && tx.inputs[n] == i;
          assert scan.spent[n] in scan.spent;
        }
      } else {
        var u :| u in scan.spent && u.typ !in ts;
        var n :| 0 <= n < |scan.spent| && scan.spent[n] == u;
        assert tx.inputs[n] in tx.inputs;
      }
    }
  }

  /** The checks of each kind, once the inputs were scanned, are those on where its inputs come from. */
  lemma {:induction false} ChecksOfKind(s: Store, tx: Transaction, h: Hash, fork: bool, k: Kind, scan: Scan)
    requires Shaped(tx, k) && tx.outputs != [] && tx.inputs != []
    requires ScanInputs(s, tx, h, fork, |tx.inputs|) == Ok(scan)
    ensures TypeChecks(s, tx, h, scan, true) <==>
            match k
            case Minting => MintOpen(s, tx.inputs[0], h)
            case Depositing =>
              && tx.inputs[0].deposited > 0
              && (tx.inputs[0].unique in s.deposits ==> s.deposits[tx.inputs[0].unique] == h)
            case _ => SpendsFrom(s, tx, h, fork, Sources(k))
  {
    ShapeType(tx, k);
    ScanOfKind(s, tx, h, fork, k);
    if k.Minting? {
      MintIff(s, tx.inputs[0], h);
    }
    forall o <- tx.outputs
      ensures exists i :: 0 <= i < |tx.outputs| && tx.outputs[i] == o
    {
    }
  }

  /** The inputs can be used by this kind, as far as the scan looks at them. */
  ghost predicate Uses(s: Store, tx: Transaction, h: Hash, fork: bool, k: Kind) {
    k.Minting? || k.Depositing? || SpendsFrom(s, tx, h, fork, UsableBy(TypeOfKind(k)))
  }

  /** Validation comes to lock ghost keys if the inputs can be used and the outputs pass, whatever
      the sums and the checks of the kind say after that. */
  ghost predicate Reaches(s: Store, tx: Transaction, h: Hash, fork: bool, checks: Checks, k: Kind) {
    Sized(s, tx) && OutputsPass(s, tx, h) && checks.signed && Uses(s, tx, h, fork, k)
  }

  lemma {:induction false} UsesIff(s: Store, tx: Transaction, h: Hash, fork: bool, k: Kind)
    requires Shaped(tx, k) && tx.outputs != [] && tx.inputs != []
    ensures ScanInputs(s, tx, h, fork, |tx.inputs|).Ok? <==> Uses(s, tx, h, fork, k)
  {
    ScanOfKind(s, tx, h, fork, k);
  }

  lemma {:induction false} OutputsPassIff(s: Store, tx: Transaction, h: Hash)
    ensures OutputsPass(s, tx, h) <==>
            TallyOutputs(tx.outputs).Ok? && LockGhosts(s.ghosts, TallyOutputs(tx.outputs).value.keys, h).Ok?
  {
    TallyIff(tx.outputs);
    if TallyOutputs(tx.outputs).Ok? {
      FreeIs(s, tx, h);
    }
  }

  /** Validation, step by step, of a transaction of some kind. */
  lemma {:induction false} ValidateIs(s: Store, tx: Transaction, h: Hash, fork: bool, checks: Checks, k: Kind)
    requires Shaped(tx, k)
    ensures Reaches(s, tx, h, fork, checks, k) ==>
              var scan, tally := ScanInputs(s, tx, h, fork, |tx.inputs|), TallyOutputs(tx.outputs);
              && scan.Ok? && tally.Ok? && LockGhosts(s.ghosts, tally.value.keys, h).Ok?
              && Validate(s, tx, h, fork, checks) ==
                 (scan.value.amount > 0 && scan.value.amount == tally.value.amount &&
                    TypeChecks(s, tx, h, scan.value, checks.agreed),
                  s.(ghosts := LockGhosts(s.ghosts, tally.value.keys, h).value))
    ensures !Reaches(s, tx, h, fork, checks, k) ==> Validate(s, tx, h, fork, checks) == (false, s)
  {
    SizedIs(s, tx);
    OutputsPassIff(s, tx, h);
    if Sized(s, tx) {
      ShapeType(tx, k);
      UsesIff(s, tx, h, fork, k);
    }
  }

  lemma {:induction false} FundedIff(s: Store, tx: Transaction, h: Hash, fork: bool, checks: Checks, k: Kind,
                                     scan: Scan)
    requires Shaped(tx, k) && Reaches(s, tx, h, fork, checks, k)
    requires ScanInputs(s, tx, h, fork, |tx.inputs|) == Ok(scan) && TallyOutputs(tx.outputs).Ok?
    ensures Funded(s, tx, h, fork, k) && checks.agreed <==>
            && scan.amount > 0 && scan.amount == TallyOutputs(tx.outputs).value.amount
            && TypeChecks(s, tx, h, scan, checks.agreed)
  {
    TallyIff(tx.outputs);
    SumPositive(tx.outputs);
    ScanOfKind(s, tx, h, fork, k);
    ChecksOfKind(s, tx, h, fork, k, scan);
  }

  lemma {:induction false} FundedReaches(s: Store, tx: Transaction, h: Hash, fork: bool, checks: Checks, k: Kind)
    requires Shaped(tx, k) && Accepts(s, tx, h, fork, checks, k)
    ensures Reaches(s, tx, h, fork, checks, k)
  {
    forall i <- tx.inputs | !k.Minting? && !k.Depositing?
      ensures CanSpend(s, tx.asset, i, h, fork, UsableBy(TypeOfKind(k)))
    {
      assert CanSpend(s, tx.asset, i, h, fork, Sources(k));
    }
  }

  /** Of each kind, exactly these transactions are accepted. */
  lemma {:induction false} AcceptsIff(s: Store, tx: Transaction, h: Hash, fork: bool, checks: Checks, k: Kind)
    requires Shaped(tx, k)
    ensures Validate(s, tx, h, fork, checks).0 <==> Accepts(s, tx, h, fork, checks, k)
  {
    ValidateIs(s, tx, h, fork, checks, k);
    if Reaches(s, tx, h, fork, checks, k) {
      FundedIff(s, tx, h, fork, checks, k, ScanInputs(s, tx, h, fork, |tx.inputs|).value);
    } else if Accepts(s, tx, h, fork, checks, k) {
      FundedReaches(s, tx, h, fork, checks, k);
    }
  }

  /** No other transaction is. */
  lemma {:induction false} AcceptedHasKind(s: Store, tx: Transaction, h: Hash, fork: bool, checks: Checks)
    returns (k: Kind)
    requires Validate(s, tx, h, fork, checks).0
    ensures Shaped(tx, k) && Accepts(s, tx, h, fork, checks, k)
  {
    k := TypeShape(s, tx, h, ScanInputs(s, tx, h, fork, |tx.inputs|).value);
    AcceptsIff(s, tx, h, fork, checks, k);
  }

  /** The kinds do not overlap. */
  lemma {:induction false} OneKind(tx: Transaction, j: Kind, k: Kind)
    requires tx.outputs != [] && Shaped(tx, j) && Shaped(tx, k)
    ensures j == k
  {
    ShapeType(tx, j);
    ShapeType(tx, k);
  }

  // ----- the ghost keys it leaves locked

  lemma {:induction false} LockGhostsIs(ghosts: map<Key, Hash>, keys: seq<Key>, h: Hash, x: Key)
    requires LockGhosts(ghosts, keys, h).Ok?
    ensures var g := LockGhosts(ghosts, keys, h).value;
            (x in g <==> x in ghosts || x in keys) && (x in g ==> g[x] == if x in keys then h else ghosts[x])
    decreases |keys|
  {
    if keys != [] {
      var pre, last := keys[..|keys| - 1], keys[|keys| - 1];
      assert keys == pre + [last];
      LockGhostsIs(ghosts, pre, h, x);
    }
  }

  /** They are those of the outputs without withdrawal data, whether or not it accepts. */
  lemma {:induction false} ValidateLocks(s: Store, tx: Transaction, h: Hash, fork: bool, checks: Checks, k: Kind,
                                         x: Key)
    requires Shaped(tx, k)
    ensures var g, locks := Validate(s, tx, h, fork, checks).1.ghosts, Reaches(s, tx, h, fork, checks, k);
            && (x in g <==> x in s.ghosts || (locks && InSome(tx.outputs, x)))
            && (x in g ==> g[x] == if locks && InSome(tx.outputs, x) then h else s.ghosts[x])
  {
    ValidateIs(s, tx, h, fork, checks, k);
    if Reaches(s, tx, h, fork, checks, k) {
      TallyIff(tx.outputs);
      LockGhostsIs(s.ghosts, TallyOutputs(tx.outputs).value.keys, h, x);
    }
  }
}
