/** What runs of the network can achieve: exactly which answers count, when a transaction has a
    quorum, when a node finalises it, and that enough honest nodes which accept it do. */
module NetworkProgress {
  import opened Ledger
  import opened LedgerSafety
  import opened LedgerRuns
  import opened LedgerFinality
  import opened LedgerAccepts
  import opened LedgerProgress
  import opened Network
  import opened Quorum

  // ----- nothing is taken back

  ghost predicate NoLess(n: Net, n': Net) {
    && n'.peers.Keys == n.peers.Keys && (forall j <- n.peers :: n.peers[j].ever <= n'.peers[j].ever)
    && (forall snap: Snap :: Answers(n, snap) <= Answers(n', snap))
    && (forall y <- n.certs :: y in n'.certs && n'.certs[y] == n.certs[y])
  }

  lemma {:induction false} StepGrows(cfg: Config, n: Net, e: Event)
    ensures NoLess(n, Step(cfg, n, e))
  {
    match e
    case Local(j, op) => LocalGrows(cfg, n, j, op);
    case Answer(j, snap) => AnswerGrows(cfg, n, j, snap);
    case Certify(snap) =>
  }

  lemma {:induction false} LocalGrows(cfg: Config, n: Net, j: Node, op: Op)
    ensures NoLess(n, LocalStep(cfg, n, j, op))
  {
    var n' := LocalStep(cfg, n, j, op);
    assert n'.answers == n.answers && n'.certs == n.certs && n'.peers.Keys == n.peers.Keys;
    assert forall i <- n.peers :: n.peers[i].ever <= n'.peers[i].ever;
  }

  lemma {:induction false} AnswerGrows(cfg: Config, n: Net, j: Node, snap: Snap)
    ensures NoLess(n, AnswerStep(cfg, n, j, snap))
  {
    var n' := AnswerStep(cfg, n, j, snap);
    assert n'.peers == n.peers && n'.certs == n.certs;
    assert forall t: Snap :: Answers(n, t) <= Answers(n', t);
  }

  lemma {:induction false} RunNext(cfg: Config, es: seq<Event>, e: Event)
    ensures Run(cfg, es + [e]) == Step(cfg, Run(cfg, es), e)
  {
    assert (es + [e])[..|es|] == es;
  }

  lemma {:induction false} RunGrowsOn(cfg: Config, es: seq<Event>, more: seq<Event>)
    ensures NoLess(Run(cfg, es), Run(cfg, es + more))
    decreases |more|
  {
    if more == [] {
      assert es + more == es;
    } else {
      var init, e := more[..|more| - 1], more[|more| - 1];
      RunGrowsOn(cfg, es, init);
      assert es + more == (es + init) + [e];
      RunNext(cfg, es + init, e);
      StepGrows(cfg, Run(cfg, es + init), e);
    }
  }

  // ----- answers

  /** The node may answer now: it is Byzantine, or it has persisted the snapshot's transaction. */
  ghost predicate MayAnswer(cfg: Config, n: Net, j: Node, snap: Snap) {
    j in cfg.byzantine || (j in n.peers && cfg.carried(snap) in n.peers[j].ever)
  }

  /** The answer came, at a time when it was due. */
  ghost predicate Answered(cfg: Config, es: seq<Event>, j: Node, snap: Snap) {
    exists i :: 0 <= i < |es| && es[i] == Answer(j, snap) && MayAnswer(cfg, Run(cfg, es[..i]), j, snap)
  }

  /** The answers a run has gathered are exactly those. */
  lemma {:induction false} AnsweredIff(cfg: Config, es: seq<Event>, j: Node, snap: Snap)
    ensures j in Answers(Run(cfg, es), snap) <==> Answered(cfg, es, j, snap)
    decreases |es|
  {
    if es != [] {
      var init, e := es[..|es| - 1], es[|es| - 1];
      AnsweredIff(cfg, init, j, snap);
      assert forall i | 0 <= i < |init| :: init[..i] == es[..i];
      AnswerAdds(cfg, Run(cfg, init), e, j, snap);
      if Answered(cfg, es, j, snap) && !(e == Answer(j, snap) && MayAnswer(cfg, Run(cfg, init), j, snap)) {
        var i :| 0 <= i < |es| && es[i] == Answer(j, snap) && MayAnswer(cfg, Run(cfg, es[..i]), j, snap);
        assert init[i] == es[i];
      }
    }
  }

  lemma {:induction false} AnswerAdds(cfg: Config, n: Net, e: Event, j: Node, snap: Snap)
    ensures j in Answers(Step(cfg, n, e), snap) <==>
            j in Answers(n, snap) || (e == Answer(j, snap) && MayAnswer(cfg, n, j, snap))
  {
  }

  // ----- quorums

  /** The keys whose answers for a snapshot count. */
  ghost function Signers(cfg: Config, es: seq<Event>, snap: Snap): set<Node> {
    set j <- cfg.keys | Answered(cfg, es, j, snap)
  }

  lemma {:induction false} SignersAre(cfg: Config, es: seq<Event>, snap: Snap)
    ensures Answers(Run(cfg, es), snap) * cfg.keys == Signers(cfg, es, snap)
  {
    forall j <- cfg.keys
      ensures j in Answers(Run(cfg, es), snap) <==> Answered(cfg, es, j, snap)
    {
      AnsweredIff(cfg, es, j, snap);
    }
  }

  ghost predicate CertifiedAt(cfg: Config, es: seq<Event>, i: nat, h: Hash) {
    && i < |es| && es[i].Certify? && cfg.carried(es[i].snap) == h
    && |Signers(cfg, es[..i], es[i].snap)| >= Threshold(cfg.base)
  }

  /** A transaction is certified exactly if some snapshot of it was with enough signers. */
  lemma {:induction false} CertifiedIff(cfg: Config, es: seq<Event>, h: Hash)
    ensures h in Run(cfg, es).certs <==> exists i: nat :: CertifiedAt(cfg, es, i, h)
    decreases |es|
  {
    if es == [] {
      assert forall i: nat :: !CertifiedAt(cfg, es, i, h);
    } else {
      var init, e := es[..|es| - 1], es[|es| - 1];
      CertifiedIff(cfg, init, h);
      assert es == init + [e];
      CertAdds(cfg, init, e, h);
      forall i: nat
        ensures CertifiedAt(cfg, es, i, h) <==>
                CertifiedAt(cfg, init, i, h) || (i == |init| && CertifiedAt(cfg, es, i, h))
      {
        if i < |init| {
          assert init[..i] == es[..i] && init[i] == es[i];
        }
      }
    }
  }

  lemma {:induction false} CertAdds(cfg: Config, init: seq<Event>, e: Event, h: Hash)
    ensures h in Step(cfg, Run(cfg, init), e).certs <==>
            h in Run(cfg, init).certs || CertifiedAt(cfg, init + [e], |init|, h)
  {
    assert (init + [e])[..|init|] == init;
    if e.Certify? {
      SignersAre(cfg, init, e.snap);
    }
  }

  /** Whatever else happens in between: once enough keys may answer for a snapshot and do, it can be
      certified. */
  lemma {:induction false} QuorumGathers(cfg: Config, es: seq<Event>, more: seq<Event>, snap: Snap, signers: set<Node>)
    requires signers <= cfg.keys && |signers| >= Threshold(cfg.base)
    requires forall j <- signers :: MayAnswer(cfg, Run(cfg, es), j, snap) && Answer(j, snap) in more
    ensures cfg.carried(snap) in Run(cfg, es + more + [Certify(snap)]).certs
  {
    var all := es + more;
    forall j <- signers
      ensures j in Answers(Run(cfg, all), snap)
    {
      var i :| 0 <= i < |more| && more[i] == Answer(j, snap);
      assert all[..|es| + i] == es + more[..i] && all[|es| + i] == Answer(j, snap);
      RunGrowsOn(cfg, es, more[..i]);
      assert MayAnswer(cfg, Run(cfg, all[..|es| + i]), j, snap);
      AnsweredIff(cfg, all, j, snap);
    }
    SubsetSize(signers, Answers(Run(cfg, all), snap) * cfg.keys);
    RunNext(cfg, all, Certify(snap));
  }

  // ----- finalising

  /** The ledger of an honest node is a run of the ledger. */
  lemma {:induction false} PeerIsRun(cfg: Config, es: seq<Event>, j: Node) returns (ops: seq<Op>)
    requires j in Run(cfg, es).peers
    ensures Run(cfg, es).peers[j].ledger == Execs(cfg.book, ops)
    decreases |es|
  {
    if es == [] {
      ops := [];
    } else {
      var init, e := es[..|es| - 1], es[|es| - 1];
      ops := PeerIsRun(cfg, init, j);
      if e.Local? && e.node == j && Allowed(Run(cfg, init), e.op) {
        assert (ops + [e.op])[..|ops|] == ops;
        ops := ops + [e.op];
      }
    }
  }

  ghost predicate SkippedFree(tx: Transaction, ghosts: map<Key, Hash>, h: Hash) {
    forall o <- tx.outputs | Skipped(o) :: AllFree(ghosts, o.keys, h)
  }

  /** In every run, a node makes a transaction final exactly if it is certified, the node has it
      persisted, and no other transaction took a key that validation had skipped. */
  lemma {:induction false} FinalisesIff(cfg: Config, es: seq<Event>, j: Node, h: Hash, snapshot: Hash)
    requires j in Run(cfg, es).peers
    ensures var n, n' := Run(cfg, es), Run(cfg, es + [Local(j, OpSnapshot(h, snapshot))]);
            var s := n.peers[j].ledger.store;
            && j in n'.peers
            && (h in n'.peers[j].ledger.store.finals <==>
                h in s.finals || (h in n.certs && h in s.txs && SkippedFree(cfg.book(h), s.ghosts, h)))
  {
    var n, op := Run(cfg, es), OpSnapshot(h, snapshot);
    var ops := PeerIsRun(cfg, es, j);
    var a := n.peers[j].ledger;
    RunNext(cfg, es, Local(j, op));
    RunKeeps(cfg.book, ops);
    if h in a.store.txs {
      FinalisableIff(cfg.book, ops, h, snapshot);
      if h !in a.store.finals && WriteSnapshot(a.store, cfg.book(h), h, snapshot).Ok? {
        FinalizeUtxos(cfg.book, a.store, h, snapshot);
      }
    }
  }

  // ----- taking a transaction in

  lemma {:induction false} LocalRuns(cfg: Config, es: seq<Event>, j: Node, a: Op, b: Op, c: Op)
    requires var n := Run(cfg, es); j in n.peers && Allowed(n, a) && Allowed(n, b) && Allowed(n, c)
    ensures var n, n' := Run(cfg, es), Run(cfg, es + [Local(j, a), Local(j, b), Local(j, c)]);
            && n'.peers.Keys == n.peers.Keys && n'.certs == n.certs
            && n'.peers[j].ledger == Exec(cfg.book, Exec(cfg.book, Exec(cfg.book, n.peers[j].ledger, a), b), c)
            && n'.peers[j].ledger.store.txs <= n'.peers[j].ever
            && (forall i <- n.peers | i != j :: n'.peers[i] == n.peers[i])
  {
    var e1, e2 := es + [Local(j, a)], es + [Local(j, a), Local(j, b)];
    assert e2 == e1 + [Local(j, b)] && es + [Local(j, a), Local(j, b), Local(j, c)] == e2 + [Local(j, c)];
    RunNext(cfg, es, Local(j, a));
    RunNext(cfg, e1, Local(j, b));
    RunNext(cfg, e2, Local(j, c));
  }

  function TakeIn(j: Node, h: Hash, fork: bool, checks: Checks): seq<Event> {
    [Local(j, OpValidate(h, fork, checks)), Local(j, OpLock(h, fork)), Local(j, OpWrite(h))]
  }

  /** In every run, an honest node that accepts a transaction has persisted it after validate, lock
      and write, and may answer for it, exactly if it had before or every input yields. */
  lemma {:induction false} TakesInIff(cfg: Config, es: seq<Event>, j: Node, h: Hash, fork: bool, checks: Checks)
    requires j in Run(cfg, es).peers && h != 0 && (fork ==> h in Run(cfg, es).certs)
    requires Validate(Run(cfg, es).peers[j].ledger.store, cfg.book(h), h, fork, checks).0
    ensures var n, n' := Run(cfg, es), Run(cfg, es + TakeIn(j, h, fork, checks));
            var s := n.peers[j].ledger.store;
            && n'.peers.Keys == n.peers.Keys && n'.certs == n.certs
            && (forall i <- n.peers | i != j :: n'.peers[i] == n.peers[i])
            && (h in n'.peers[j].ledger.store.txs <==>
                h in s.txs || forall i <- cfg.book(h).inputs :: Lockable(s, i, h, fork))
            && (h in n'.peers[j].ledger.store.txs ==> h in n'.peers[j].ever)
  {
    var ops := PeerIsRun(cfg, es, j);
    RunKeeps(cfg.book, ops);
    LocalRuns(cfg, es, j, OpValidate(h, fork, checks), OpLock(h, fork), OpWrite(h));
    PersistSteps(cfg.book, Run(cfg, es).peers[j].ledger, h, fork, checks);
  }

  lemma {:induction false} TakeInKeepsFree(cfg: Config, es: seq<Event>, j: Node, h: Hash, checks: Checks)
    requires j in Run(cfg, es).peers
    requires var s := Run(cfg, es).peers[j].ledger.store;
             Validate(s, cfg.book(h), h, false, checks).0 && SkippedFree(cfg.book(h), s.ghosts, h)
    ensures var n' := Run(cfg, es + TakeIn(j, h, false, checks));
            j in n'.peers && SkippedFree(cfg.book(h), n'.peers[j].ledger.store.ghosts, h)
  {
    var ops := PeerIsRun(cfg, es, j);
    RunKeeps(cfg.book, ops);
    LocalRuns(cfg, es, j, OpValidate(h, false, checks), OpLock(h, false), OpWrite(h));
    StepsKeepFree(cfg.book, Run(cfg, es).peers[j].ledger, h, false, checks);
  }

  lemma {:induction false} StepsKeepFree(book: Book, a: State, h: Hash, fork: bool, checks: Checks)
    requires LedgerRuns.Inv(book, a) && Validate(a.store, book(h), h, fork, checks).0
    requires SkippedFree(book(h), a.store.ghosts, h)
    ensures var b := Exec(book, a, OpValidate(h, fork, checks));
            SkippedFree(book(h), Exec(book, Exec(book, b, OpLock(h, fork)), OpWrite(h)).store.ghosts, h)
  {
    var b := Exec(book, a, OpValidate(h, fork, checks));
    var k := AcceptedHasKind(a.store, book(h), h, fork, checks);
    forall x | Free(a.store.ghosts, x, h)
      ensures Free(b.store.ghosts, x, h)
    {
      ValidateLocks(a.store, book(h), h, fork, checks, k, x);
    }
    ExecKeeps(book, a, OpValidate(h, fork, checks));
    LockLeavesGhosts(book, b, h, fork);
  }

  lemma {:induction false} LockLeavesGhosts(book: Book, b: State, h: Hash, fork: bool)
    requires LedgerRuns.Inv(book, b)
    ensures Exec(book, Exec(book, b, OpLock(h, fork)), OpWrite(h)).store.ghosts == b.store.ghosts
  {
    var s, tx := b.store, book(h);
    if h in b.approved && LockInputs(s, tx, h, fork).Ok? {
      MintEntriesMatch(book, s, h);
      LockInputsEffect(s, tx, h, fork);
    }
  }

  // ----- from acceptance to finality

  function TakeInAll(order: seq<Node>, h: Hash, checks: Checks): seq<Event> {
    if order == [] then []
    else TakeInAll(order[..|order| - 1], h, checks) + TakeIn(order[|order| - 1], h, false, checks)
  }

  function AnswerAll(order: seq<Node>, snap: Snap): seq<Event> {
    if order == [] then [] else AnswerAll(order[..|order| - 1], snap) + [Answer(order[|order| - 1], snap)]
  }

  function FinaliseAll(order: seq<Node>, h: Hash, snapshot: Hash): seq<Event> {
    if order == [] then []
    else FinaliseAll(order[..|order| - 1], h, snapshot) + [Local(order[|order| - 1], OpSnapshot(h, snapshot))]
  }

  ghost predicate Distinct(order: seq<Node>) {
    forall i, j | 0 <= i < j < |order| :: order[i] != order[j]
  }

  /** The node accepts the transaction, no other one holds a key that validation skips, and a batch
      it mints can be locked. */
  ghost predicate Willing(cfg: Config, n: Net, j: Node, h: Hash, checks: Checks, k: Kind) {
    j in n.peers && Shaped(cfg.book(h), k) &&
    var s := n.peers[j].ledger.store;
    && Accepts(s, cfg.book(h), h, false, checks, k) && SkippedFree(cfg.book(h), s.ghosts, h)
    && (k.Minting? ==> forall i <- cfg.book(h).inputs :: Lockable(s, i, h, false))
  }

  ghost predicate Persisted(cfg: Config, n: Net, j: Node, h: Hash) {
    && j in n.peers && h in n.peers[j].ledger.store.txs && h in n.peers[j].ever
    && SkippedFree(cfg.book(h), n.peers[j].ledger.store.ghosts, h)
  }

  ghost predicate Final(n: Net, j: Node, h: Hash) {
    j in n.peers && h in n.peers[j].ledger.store.finals
  }

  /** Only the nodes in `order` moved. */
  ghost predicate OnlyMoved(n: Net, n': Net, order: seq<Node>) {
    && n'.peers.Keys == n.peers.Keys && n'.certs == n.certs
    && (forall i <- n.peers | i !in order :: n'.peers[i] == n.peers[i])
  }

  lemma {:induction false} WillingTakesIn(cfg: Config, es: seq<Event>, j: Node, h: Hash, checks: Checks, k: Kind)
    requires h != 0 && Willing(cfg, Run(cfg, es), j, h, checks, k)
    ensures var n' := Run(cfg, es + TakeIn(j, h, false, checks));
            OnlyMoved(Run(cfg, es), n', [j]) && Persisted(cfg, n', j, h)
  {
    var s := Run(cfg, es).peers[j].ledger.store;
    AcceptsIff(s, cfg.book(h), h, false, checks, k);
    if !k.Minting? {
      AcceptedLocks(s, cfg.book(h), h, checks, k);
    }
    TakesInIff(cfg, es, j, h, false, checks);
    TakeInKeepsFree(cfg, es, j, h, checks);
  }

  lemma {:induction false} MovedOneMore(cfg: Config, n: Net, n1: Net, n2: Net, init: seq<Node>, j: Node)
    requires OnlyMoved(n, n1, init) && OnlyMoved(n1, n2, [j])
    ensures OnlyMoved(n, n2, init + [j])
    ensures forall i <- init, h: Hash | i != j && Persisted(cfg, n1, i, h) :: Persisted(cfg, n2, i, h)
    ensures forall i <- init, h: Hash | i != j && Final(n1, i, h) :: Final(n2, i, h)
  {
  }

  lemma {:induction false} StillPersisted(cfg: Config, n: Net, n': Net, order: seq<Node>, j: Node, h: Hash)
    requires OnlyMoved(n, n', order) && j !in order && Persisted(cfg, n, j, h)
    ensures Persisted(cfg, n', j, h)
  {
    assert n'.peers[j] == n.peers[j];
  }

  lemma {:induction false} StillWilling(cfg: Config, n: Net, n': Net, order: seq<Node>, j: Node, h: Hash,
                                        checks: Checks, k: Kind)
    requires OnlyMoved(n, n', order) && j !in order && Willing(cfg, n, j, h, checks, k)
    ensures Willing(cfg, n', j, h, checks, k)
  {
    assert n'.peers[j] == n.peers[j];
  }

  lemma {:induction false} AllTakeIn(cfg: Config, es: seq<Event>, order: seq<Node>, h: Hash, checks: Checks, k: Kind)
    requires h != 0 && Distinct(order) && forall j <- order :: Willing(cfg, Run(cfg, es), j, h, checks, k)
    ensures var n' := Run(cfg, es + TakeInAll(order, h, checks));
            OnlyMoved(Run(cfg, es), n', order) && forall j <- order :: Persisted(cfg, n', j, h)
    decreases |order|
  {
    if order == [] {
      assert es + TakeInAll(order, h, checks) == es;
    } else {
      var init, j := order[..|order| - 1], order[|order| - 1];
      assert order == init + [j] && j !in init;
      AllTakeIn(cfg, es, init, h, checks, k);
      var es' := es + TakeInAll(init, h, checks);
      assert es + TakeInAll(order, h, checks) == es' + TakeIn(j, h, false, checks);
      StillWilling(cfg, Run(cfg, es), Run(cfg, es'), init, j, h, checks, k);
      WillingTakesIn(cfg, es', j, h, checks, k);
      MovedOneMore(cfg, Run(cfg, es), Run(cfg, es'), Run(cfg, es' + TakeIn(j, h, false, checks)), init, j);
    }
  }

  lemma {:induction false} AllAnswer(cfg: Config, es: seq<Event>, order: seq<Node>, snap: Snap)
    ensures var n, n' := Run(cfg, es), Run(cfg, es + AnswerAll(order, snap)); n'.peers == n.peers && n'.certs == n.certs
    ensures forall j <- order :: Answer(j, snap) in AnswerAll(order, snap)
    decreases |order|
  {
    if order == [] {
      assert es + AnswerAll(order, snap) == es;
    } else {
      var init, j := order[..|order| - 1], order[|order| - 1];
      AllAnswer(cfg, es, init, snap);
      assert order == init + [j];
      assert es + AnswerAll(order, snap) == es + AnswerAll(init, snap) + [Answer(j, snap)];
      RunNext(cfg, es + AnswerAll(init, snap), Answer(j, snap));
    }
  }

  lemma {:induction false} HolderFinalises(cfg: Config, es: seq<Event>, j: Node, h: Hash, snapshot: Hash)
    requires h in Run(cfg, es).certs && Persisted(cfg, Run(cfg, es), j, h)
    ensures var n' := Run(cfg, es + [Local(j, OpSnapshot(h, snapshot))]);
            OnlyMoved(Run(cfg, es), n', [j]) && Final(n', j, h)
  {
    FinalisesIff(cfg, es, j, h, snapshot);
    RunNext(cfg, es, Local(j, OpSnapshot(h, snapshot)));
  }

  lemma {:induction false} AllFinalise(cfg: Config, es: seq<Event>, order: seq<Node>, h: Hash, snapshot: Hash)
    requires Distinct(order) && h in Run(cfg, es).certs
    requires forall j <- order :: Persisted(cfg, Run(cfg, es), j, h)
    ensures var n' := Run(cfg, es + FinaliseAll(order, h, snapshot));
            OnlyMoved(Run(cfg, es), n', order) && forall j <- order :: Final(n', j, h)
    decreases |order|
  {
    if order == [] {
      assert es + FinaliseAll(order, h, snapshot) == es;
    } else {
      var init, j := order[..|order| - 1], order[|order| - 1];
      assert order == init + [j] && j !in init;
      AllFinalise(cfg, es, init, h, snapshot);
      var es', e := es + FinaliseAll(init, h, snapshot), Local(j, OpSnapshot(h, snapshot));
      assert es + FinaliseAll(order, h, snapshot) == es' + [e];
      assert Persisted(cfg, Run(cfg, es), j, h);
      StillPersisted(cfg, Run(cfg, es), Run(cfg, es'), init, j, h);
      HolderFinalises(cfg, es', j, h, snapshot);
      MovedOneMore(cfg, Run(cfg, es), Run(cfg, es'), Run(cfg, es' + [e]), init, j);
    }
  }

  /** The steps by which a set of nodes brings a snapshot's transaction from acceptance to finality. */
  function Bring(order: seq<Node>, snap: Snap, h: Hash, checks: Checks, snapshot: Hash): seq<Event> {
    TakeInAll(order, h, checks) + AnswerAll(order, snap) + [Certify(snap)] + FinaliseAll(order, h, snapshot)
  }

  function Members(order: seq<Node>): set<Node> {
    set j | j in order
  }

  lemma {:induction false} OrderSize(order: seq<Node>)
    requires Distinct(order)
    ensures |Members(order)| == |order|
    decreases |order|
  {
    if order != [] {
      var init, j := order[..|order| - 1], order[|order| - 1];
      OrderSize(init);
      assert order == init + [j] && j !in init;
      assert Members(order) == Members(init) + {j};
    }
  }

  /** After every run: if as many honest nodes as the threshold asks for are willing to take a
      transaction in, then they can make it final, each in its own store. */
  lemma {:induction false} QuorumFinalises(cfg: Config, es: seq<Event>, order: seq<Node>, snap: Snap, checks: Checks,
                                           k: Kind, snapshot: Hash)
    requires Distinct(order) && |order| >= Threshold(cfg.base) && forall j <- order :: j in cfg.keys
    requires var h := cfg.carried(snap);
             h != 0 && forall j <- order :: Willing(cfg, Run(cfg, es), j, h, checks, k)
    ensures var h := cfg.carried(snap);
            var n := Run(cfg, es + Bring(order, snap, h, checks, snapshot));
            h in n.certs && forall j <- order :: Final(n, j, h)
  {
    var h := cfg.carried(snap);
    var e1 := es + TakeInAll(order, h, checks);
    AllTakeIn(cfg, es, order, h, checks, k);
    HoldersFinalise(cfg, e1, order, snap, snapshot);
    BringIs(es, order, snap, h, checks, snapshot);
  }

  lemma {:induction false} BringIs(es: seq<Event>, order: seq<Node>, snap: Snap, h: Hash, checks: Checks,
                                   snapshot: Hash)
    ensures es + Bring(order, snap, h, checks, snapshot) ==
            es + TakeInAll(order, h, checks) + AnswerAll(order, snap) + [Certify(snap)] +
            FinaliseAll(order, h, snapshot)
  {
  }

  lemma {:induction false} HoldersFinalise(cfg: Config, es: seq<Event>, order: seq<Node>, snap: Snap, snapshot: Hash)
    requires Distinct(order) && |order| >= Threshold(cfg.base) && forall j <- order :: j in cfg.keys
    requires forall j <- order :: Persisted(cfg, Run(cfg, es), j, cfg.carried(snap))
    ensures var h := cfg.carried(snap);
            var n := Run(cfg, es + AnswerAll(order, snap) + [Certify(snap)] + FinaliseAll(order, h, snapshot));
            h in n.certs && forall j <- order :: Final(n, j, h)
  {
    HoldersCertify(cfg, es, order, snap);
    var es' := es + AnswerAll(order, snap) + [Certify(snap)];
    forall j <- order
      ensures Persisted(cfg, Run(cfg, es'), j, cfg.carried(snap))
    {
      assert Persisted(cfg, Run(cfg, es), j, cfg.carried(snap));
    }
    AllFinalise(cfg, es', order, cfg.carried(snap), snapshot);
  }

  lemma {:induction false} HoldersCertify(cfg: Config, es: seq<Event>, order: seq<Node>, snap: Snap)
    requires Distinct(order) && |order| >= Threshold(cfg.base) && forall j <- order :: j in cfg.keys
    requires forall j <- order :: Persisted(cfg, Run(cfg, es), j, cfg.carried(snap))
    ensures var n := Run(cfg, es + AnswerAll(order, snap) + [Certify(snap)]);
            cfg.carried(snap) in n.certs && n.peers == Run(cfg, es).peers
  {
    AllAnswer(cfg, es, order, snap);
    OrderSize(order);
    forall j <- Members(order)
      ensures MayAnswer(cfg, Run(cfg, es), j, snap)
    {
      assert Persisted(cfg, Run(cfg, es), j, cfg.carried(snap));
    }
    QuorumGathers(cfg, es, AnswerAll(order, snap), snap, Members(order));
    RunNext(cfg, es + AnswerAll(order, snap), Certify(snap));
  }
}
