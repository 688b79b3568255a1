/** Collective signing over the ledgers of many nodes, some of them Byzantine, with a fixed list
    of consensus keys.

    A node answers for a snapshot only after the snapshot's transaction was persisted in its own
    store.  It forces locks away from other transactions only for a transaction some snapshot of
    which carries enough signers.  Every other step of a node's store may happen at any time. */
module Network {
  import opened Ledger
  import opened LedgerSafety
  import opened LedgerRuns
  import opened Quorum

  type Node = nat
  type Snap = nat

  /** `base` is what the threshold is computed from; `carried` names a snapshot's transaction. */
  datatype Config = Config(book: Book, carried: Snap -> Hash, keys: set<Node>, byzantine: set<Node>, base: nat)

  /** `ever` holds every transaction that has been persisted, even if pruned since. */
  datatype Peer = Peer(ledger: State, ever: set<Hash>)

  /** `certs` holds, for each transaction, the signers of its first snapshot with a quorum. */
  datatype Net = Net(peers: map<Node, Peer>, answers: map<Snap, set<Node>>, certs: map<Hash, set<Node>>)

  datatype Event =
    | Local(node: Node, op: Op)
    | Answer(node: Node, snap: Snap)
    | Certify(snap: Snap)

  /** Only certified transactions may force locks or be finalised. */
  predicate Allowed(n: Net, op: Op) {
    (op.OpLock? && op.fork) || op.OpSnapshot? ==> op.tx in n.certs
  }

  function Answers(n: Net, snap: Snap): set<Node> {
    if snap in n.answers then n.answers[snap] else {}
  }

  function Start(cfg: Config): Net {
    Net(map j <- cfg.keys - cfg.byzantine :: Peer(State(Empty, {}), {}), map[], map[])
  }

  function LocalStep(cfg: Config, n: Net, j: Node, op: Op): Net {
    if j !in n.peers || !Allowed(n, op) then n
    else
      var ledger := LedgerRuns.Exec(cfg.book, n.peers[j].ledger, op);
      n.(peers := n.peers[j := Peer(ledger, n.peers[j].ever + ledger.store.txs)])
  }

  /** A Byzantine node may answer anything. */
  function AnswerStep(cfg: Config, n: Net, j: Node, snap: Snap): Net {
    if j in cfg.byzantine || (j in n.peers && cfg.carried(snap) in n.peers[j].ever)
    then n.(answers := n.answers[snap := Answers(n, snap) + {j}])
    else n
  }

  function CertifyStep(cfg: Config, n: Net, snap: Snap): Net {
    var signers := Answers(n, snap) * cfg.keys;
    if cfg.carried(snap) in n.certs || |signers| < Threshold(cfg.base) then n
    else n.(certs := n.certs[cfg.carried(snap) := signers])
  }

  function Step(cfg: Config, n: Net, e: Event): Net {
    match e
    case Local(j, op) => LocalStep(cfg, n, j, op)
    case Answer(j, snap) => AnswerStep(cfg, n, j, snap)
    case Certify(snap) => CertifyStep(cfg, n, snap)
  }

  function Run(cfg: Config, es: seq<Event>): Net
    decreases |es|
  {
    if es == [] then Start(cfg) else Step(cfg, Run(cfg, es[..|es| - 1]), es[|es| - 1])
  }

  // ----- the invariant

  ghost predicate Conflict(book: Book, g: Hash, h: Hash) {
    g != h && exists c: Claim :: Claims(book(g), c) && Claims(book(h), c)
  }

  /** What a node persisted it still holds, unless a certified transaction took it over. */
  ghost predicate Holds(book: Book, certified: set<Hash>, p: Peer, x: Hash) {
    forall c: Claim | Claims(book(x), c) ::
      var g := Owner(p.ledger.store, c);
      g == x || (g in certified && Claims(book(g), c))
  }

  ghost predicate PeerInv(book: Book, certified: set<Hash>, p: Peer) {
    && LedgerRuns.Inv(book, p.ledger)
    && p.ledger.store.txs <= p.ever && 0 !in p.ever
    && (forall x <- p.ever :: Holds(book, certified, p, x))
    && (forall h <- p.ledger.store.finals :: h in certified || book(h).inputs == [Genesis])
  }

  ghost predicate PeersInv(cfg: Config, peers: map<Node, Peer>, certified: set<Hash>) {
    && peers.Keys == cfg.keys - cfg.byzantine
    && forall j {:trigger PeerInv(cfg.book, certified, peers[j])} | j in peers :: PeerInv(cfg.book, certified, peers[j])
  }

  ghost predicate CertInv(cfg: Config, peers: map<Node, Peer>, y: Hash, signers: set<Node>) {
    && signers <= cfg.keys && |signers| >= Threshold(cfg.base)
    && (forall j <- signers | j in peers ::
          y in peers[j].ever && forall x <- peers[j].ever :: !Conflict(cfg.book, x, y))
  }

  ghost predicate CertsInv(cfg: Config, peers: map<Node, Peer>, certs: map<Hash, set<Node>>) {
    0 !in certs && forall y {:trigger CertInv(cfg, peers, y, certs[y])} | y in certs :: CertInv(cfg, peers, y, certs[y])
  }

  ghost predicate Entitled(cfg: Config, peers: map<Node, Peer>, snap: Snap, j: Node) {
    j in cfg.byzantine || (j in peers && cfg.carried(snap) in peers[j].ever)
  }

  ghost predicate AnswersInv(cfg: Config, peers: map<Node, Peer>, answers: map<Snap, set<Node>>) {
    forall snap <- answers :: forall j <- answers[snap] :: Entitled(cfg, peers, snap, j)
  }

  ghost predicate Agreement(book: Book, certified: set<Hash>) {
    forall y <- certified, z <- certified :: !Conflict(book, y, z)
  }

  ghost predicate NetInv(cfg: Config, n: Net) {
    && PeersInv(cfg, n.peers, n.certs.Keys) && CertsInv(cfg, n.peers, n.certs)
    && AnswersInv(cfg, n.peers, n.answers) && Agreement(cfg.book, n.certs.Keys)
  }

  /** The keys may be one more than the base, as with that of a removed or a pledging node. */
  ghost predicate Tolerable(cfg: Config) {
    Tight(|cfg.keys|, cfg.base) && 3 * |cfg.byzantine| <= cfg.base
  }

  // ----- one step of a node's own ledger

  /** A claim changes hands only if it was free or a forced lock takes it. */
  lemma {:induction false} OwnersMove(book: Book, a: State, op: Op, c: Claim)
    requires LedgerRuns.Inv(book, a)
    ensures var g, g' := Owner(a.store, c), Owner(LedgerRuns.Exec(book, a, op).store, c);
            g' == g || g == 0 || (op.OpLock? && op.fork && g' == op.tx && Claims(book(op.tx), c))
  {
    var h := op.tx;
    if h != 0 {
      match op
      case OpGenesis(_, snapshot) =>
        if h !in a.store.finals && LoadGenesis(a.store, book(h), h, snapshot).Ok? {
          FinalizeUtxos(book, a.store.(txs := a.store.txs + {h}), h, snapshot);
        }
      case OpValidate(_, fork, checks) => ValidateEffect(a.store, book(h), h, fork, checks);
      case OpLock(_, fork) =>
        if h in a.approved && LockInputs(a.store, book(h), h, fork).Ok? {
          MintEntriesMatch(book, a.store, h);
          LockInputsEffect(a.store, book(h), h, fork);
          assert c in ClaimsOf(book(h)) <==> Claims(book(h), c);
        }
      case OpWrite(_) =>
      case OpSnapshot(_, snapshot) =>
        if h !in a.store.finals && WriteSnapshot(a.store, book(h), h, snapshot).Ok? {
          FinalizeUtxos(book, a.store, h, snapshot);
        }
    }
  }

  lemma {:induction false} FinalsMove(book: Book, a: State, op: Op)
    requires LedgerRuns.Inv(book, a)
    ensures forall h <- LedgerRuns.Exec(book, a, op).store.finals ::
              h in a.store.finals || (h == op.tx && (op.OpSnapshot? || book(h).inputs == [Genesis]))
  {
    var h := op.tx;
    if h != 0 {
      match op
      case OpGenesis(_, snapshot) =>
        if h !in a.store.finals && LoadGenesis(a.store, book(h), h, snapshot).Ok? {
          FinalizeUtxos(book, a.store.(txs := a.store.txs + {h}), h, snapshot);
        }
      case OpValidate(_, fork, checks) => ValidateEffect(a.store, book(h), h, fork, checks);
      case OpLock(_, fork) =>
        if h in a.approved && LockInputs(a.store, book(h), h, fork).Ok? {
          MintEntriesMatch(book, a.store, h);
          LockInputsEffect(a.store, book(h), h, fork);
        }
      case OpWrite(_) =>
      case OpSnapshot(_, snapshot) =>
        if h !in a.store.finals && WriteSnapshot(a.store, book(h), h, snapshot).Ok? {
          FinalizeUtxos(book, a.store, h, snapshot);
        }
    }
  }

  lemma {:induction false} LocalPeer(cfg: Config, n: Net, j: Node, op: Op)
    requires NetInv(cfg, n) && j in n.peers && Allowed(n, op)
    ensures var n' := LocalStep(cfg, n, j, op);
            PeerInv(cfg.book, n.certs.Keys, n'.peers[j])
  {
    var p, p' := n.peers[j], LocalStep(cfg, n, j, op).peers[j];
    assert PeerInv(cfg.book, n.certs.Keys, p);
    ExecKeeps(cfg.book, p.ledger, op);
    FinalsMove(cfg.book, p.ledger, op);
    forall x <- p'.ever
      ensures Holds(cfg.book, n.certs.Keys, p', x)
    {
      if x in p'.ledger.store.txs {
        assert HoldsClaims(p'.ledger.store, cfg.book(x), x);
      } else {
        LocalHolds(cfg.book, n.certs.Keys, p, op, p', x);
      }
    }
  }

  lemma {:induction false} LocalHolds(book: Book, certified: set<Hash>, p: Peer, op: Op, p': Peer, x: Hash)
    requires PeerInv(book, certified, p) && x in p.ever && 0 !in certified
    requires op.OpLock? && op.fork ==> op.tx in certified
    requires p'.ledger == LedgerRuns.Exec(book, p.ledger, op)
    ensures Holds(book, certified, p', x)
  {
    assert Holds(book, certified, p, x);
    forall c: Claim | Claims(book(x), c)
      ensures var g := Owner(p'.ledger.store, c); g == x || (g in certified && Claims(book(g), c))
    {
      OwnersMove(book, p.ledger, op, c);
    }
  }

  /** What a signer persists later does not conflict with what it signed. */
  lemma {:induction false} NewcomerApart(cfg: Config, n: Net, p: Peer, x: Hash, y: Hash)
    requires PeerInv(cfg.book, n.certs.Keys, p) && Agreement(cfg.book, n.certs.Keys)
    requires x in p.ledger.store.txs && y in p.ever && y in n.certs
    ensures !Conflict(cfg.book, x, y)
  {
    if x !in n.certs {
      assert HoldsClaims(p.ledger.store, cfg.book(x), x);
      assert Holds(cfg.book, n.certs.Keys, p, y);
    }
  }

  ghost predicate Advances(p: Peer, p': Peer) {
    p.ever <= p'.ever && p'.ever <= p.ever + p'.ledger.store.txs
  }

  lemma {:induction false} NewcomersApart(cfg: Config, n: Net, p: Peer, p': Peer, y: Hash)
    requires PeerInv(cfg.book, n.certs.Keys, p') && Agreement(cfg.book, n.certs.Keys) && Advances(p, p')
    requires y in p.ever && y in n.certs && forall x <- p.ever :: !Conflict(cfg.book, x, y)
    ensures forall x <- p'.ever :: !Conflict(cfg.book, x, y)
  {
    forall x <- p'.ever
      ensures !Conflict(cfg.book, x, y)
    {
      if x !in p.ever {
        NewcomerApart(cfg, n, p', x, y);
      }
    }
  }

  lemma {:induction false} CertSurvives(cfg: Config, n: Net, j: Node, p': Peer, y: Hash)
    requires NetInv(cfg, n) && j in n.peers && y in n.certs
    requires PeerInv(cfg.book, n.certs.Keys, p') && Advances(n.peers[j], p')
    ensures CertInv(cfg, n.peers[j := p'], y, n.certs[y])
  {
    assert CertInv(cfg, n.peers, y, n.certs[y]);
    if j in n.certs[y] {
      NewcomersApart(cfg, n, n.peers[j], p', y);
    }
    CertMoves(cfg, n.peers, j, p', y, n.certs[y]);
  }

  lemma {:induction false} CertMoves(cfg: Config, peers: map<Node, Peer>, j: Node, p': Peer, y: Hash,
                                     signers: set<Node>)
    requires CertInv(cfg, peers, y, signers) && j in peers
    requires j in signers ==> y in p'.ever && forall x <- p'.ever :: !Conflict(cfg.book, x, y)
    ensures CertInv(cfg, peers[j := p'], y, signers)
  {
    var peers' := peers[j := p'];
    forall i <- signers | i in peers'
      ensures y in peers'[i].ever && forall x <- peers'[i].ever :: !Conflict(cfg.book, x, y)
    {
      if i != j {
        assert peers'[i] == peers[i];
      }
    }
  }

  lemma {:induction false} CertsSurvive(cfg: Config, n: Net, j: Node, p': Peer)
    requires NetInv(cfg, n) && j in n.peers
    requires PeerInv(cfg.book, n.certs.Keys, p') && Advances(n.peers[j], p')
    ensures CertsInv(cfg, n.peers[j := p'], n.certs)
  {
    forall y <- n.certs
      ensures CertInv(cfg, n.peers[j := p'], y, n.certs[y])
    {
      CertSurvives(cfg, n, j, p', y);
    }
  }

  lemma {:induction false} PeersSurvive(cfg: Config, peers: map<Node, Peer>, certified: set<Hash>, j: Node, p': Peer)
    requires PeersInv(cfg, peers, certified) && j in peers && PeerInv(cfg.book, certified, p')
    ensures PeersInv(cfg, peers[j := p'], certified)
  {
    assert peers[j := p'].Keys == peers.Keys;
  }

  lemma {:induction false} AnswersSurvive(cfg: Config, n: Net, j: Node, p': Peer)
    requires AnswersInv(cfg, n.peers, n.answers) && j in n.peers && Advances(n.peers[j], p')
    ensures AnswersInv(cfg, n.peers[j := p'], n.answers)
  {
    forall snap <- n.answers, i <- n.answers[snap]
      ensures Entitled(cfg, n.peers[j := p'], snap, i)
    {
      assert Entitled(cfg, n.peers, snap, i);
    }
  }

  /** The ledger of one peer moves. */
  lemma {:induction false} PeerKeeps(cfg: Config, n: Net, j: Node, p': Peer)
    requires NetInv(cfg, n) && j in n.peers
    requires PeerInv(cfg.book, n.certs.Keys, p') && Advances(n.peers[j], p')
    ensures NetInv(cfg, n.(peers := n.peers[j := p']))
  {
    PeersSurvive(cfg, n.peers, n.certs.Keys, j, p');
    CertsSurvive(cfg, n, j, p');
    AnswersSurvive(cfg, n, j, p');
  }

  lemma {:induction false} LocalKeeps(cfg: Config, n: Net, j: Node, op: Op)
    requires NetInv(cfg, n)
    ensures NetInv(cfg, LocalStep(cfg, n, j, op))
  {
    if j in n.peers && Allowed(n, op) {
      LocalPeer(cfg, n, j, op);
      var n' := LocalStep(cfg, n, j, op);
      PeerKeeps(cfg, n, j, n'.peers[j]);
    }
  }

  lemma {:induction false} AnswerKeeps(cfg: Config, n: Net, j: Node, snap: Snap)
    requires NetInv(cfg, n)
    ensures NetInv(cfg, AnswerStep(cfg, n, j, snap))
  {
    var n' := AnswerStep(cfg, n, j, snap);
    forall t <- n'.answers, i <- n'.answers[t]
      ensures Entitled(cfg, n.peers, t, i)
    {
      assert t in n.answers && i in n.answers[t] ==> Entitled(cfg, n.peers, t, i);
    }
  }

  // ----- a new certificate

  /** Two sets of signers with a quorum share a node that is not Byzantine. */
  lemma {:induction false} HonestInBoth(cfg: Config, a: set<Node>, b: set<Node>) returns (j: Node)
    requires Tolerable(cfg)
    requires a <= cfg.keys && b <= cfg.keys && |a| >= Threshold(cfg.base) && |b| >= Threshold(cfg.base)
    ensures j in a && j in b && j in cfg.keys - cfg.byzantine
  {
    TightOverlap(cfg.keys, cfg.base, a, b);
    if a * b <= cfg.byzantine {
      SubsetSize(a * b, cfg.byzantine);
      assert false;
    }
    j :| j in a * b && j !in cfg.byzantine;
  }

  /** A transaction in conflict with a certified one can never gather a quorum. */
  lemma {:induction false} NoRival(cfg: Config, n: Net, snap: Snap, z: Hash)
    requires Tolerable(cfg) && NetInv(cfg, n) && z in n.certs
    requires |Answers(n, snap) * cfg.keys| >= Threshold(cfg.base)
    ensures !Conflict(cfg.book, cfg.carried(snap), z)
  {
    assert CertInv(cfg, n.peers, z, n.certs[z]);
    var j := HonestInBoth(cfg, Answers(n, snap) * cfg.keys, n.certs[z]);
    assert Entitled(cfg, n.peers, snap, j);
  }

  lemma {:induction false} NewCert(cfg: Config, n: Net, snap: Snap)
    requires Tolerable(cfg) && NetInv(cfg, n)
    requires cfg.carried(snap) !in n.certs && |Answers(n, snap) * cfg.keys| >= Threshold(cfg.base)
    ensures CertInv(cfg, n.peers, cfg.carried(snap), Answers(n, snap) * cfg.keys)
    ensures cfg.carried(snap) != 0
  {
    var y, signers := cfg.carried(snap), Answers(n, snap) * cfg.keys;
    var k := HonestInBoth(cfg, signers, signers);
    assert Entitled(cfg, n.peers, snap, k) && PeerInv(cfg.book, n.certs.Keys, n.peers[k]);
    forall j <- signers | j in n.peers
      ensures y in n.peers[j].ever && forall x <- n.peers[j].ever :: !Conflict(cfg.book, x, y)
    {
      var p := n.peers[j];
      assert Entitled(cfg, n.peers, snap, j);
      assert PeerInv(cfg.book, n.certs.Keys, p);
      forall x <- p.ever
        ensures !Conflict(cfg.book, x, y)
      {
        if Conflict(cfg.book, x, y) {
          var c: Claim :| Claims(cfg.book(x), c) && Claims(cfg.book(y), c);
          assert Holds(cfg.book, n.certs.Keys, p, x) && Holds(cfg.book, n.certs.Keys, p, y);
          var z := Owner(p.ledger.store, c);
          NoRival(cfg, n, snap, z);
          assert false;
        }
      }
    }
  }

  lemma {:induction false} CertifyAgrees(cfg: Config, n: Net, snap: Snap)
    requires Tolerable(cfg) && NetInv(cfg, n)
    ensures Agreement(cfg.book, CertifyStep(cfg, n, snap).certs.Keys)
  {
    var y, n' := cfg.carried(snap), CertifyStep(cfg, n, snap);
    if n' != n {
      forall z <- n.certs
        ensures !Conflict(cfg.book, y, z) && !Conflict(cfg.book, z, y)
      {
        NoRival(cfg, n, snap, z);
      }
    }
  }

  lemma {:induction false} MoreCerts(cfg: Config, peers: map<Node, Peer>, certified: set<Hash>, y: Hash)
    requires PeersInv(cfg, peers, certified)
    ensures PeersInv(cfg, peers, certified + {y})
  {
    forall j <- peers
      ensures PeerInv(cfg.book, certified + {y}, peers[j])
    {
      var p := peers[j];
      assert PeerInv(cfg.book, certified, p);
      forall x <- p.ever
        ensures Holds(cfg.book, certified + {y}, p, x)
      {
        assert Holds(cfg.book, certified, p, x);
      }
    }
  }

  lemma {:induction false} OneMoreCert(cfg: Config, peers: map<Node, Peer>, certs: map<Hash, set<Node>>, y: Hash,
                                       signers: set<Node>)
    requires PeersInv(cfg, peers, certs.Keys) && CertsInv(cfg, peers, certs)
    requires CertInv(cfg, peers, y, signers) && y != 0
    ensures PeersInv(cfg, peers, certs[y := signers].Keys) && CertsInv(cfg, peers, certs[y := signers])
  {
    MoreCerts(cfg, peers, certs.Keys, y);
    assert certs[y := signers].Keys == certs.Keys + {y};
  }

  lemma {:induction false} CertifyKeeps(cfg: Config, n: Net, snap: Snap)
    requires Tolerable(cfg) && NetInv(cfg, n)
    ensures NetInv(cfg, CertifyStep(cfg, n, snap))
  {
    var y, n' := cfg.carried(snap), CertifyStep(cfg, n, snap);
    CertifyAgrees(cfg, n, snap);
    if n' != n {
      NewCert(cfg, n, snap);
      OneMoreCert(cfg, n.peers, n.certs, y, Answers(n, snap) * cfg.keys);
    }
  }

  lemma {:induction false} StepKeeps(cfg: Config, n: Net, e: Event)
    requires Tolerable(cfg) && NetInv(cfg, n)
    ensures NetInv(cfg, Step(cfg, n, e))
  {
    match e
    case Local(j, op) => LocalKeeps(cfg, n, j, op);
    case Answer(j, snap) => AnswerKeeps(cfg, n, j, snap);
    case Certify(snap) => CertifyKeeps(cfg, n, snap);
  }

  lemma {:induction false} NetRun(cfg: Config, es: seq<Event>)
    requires Tolerable(cfg)
    ensures NetInv(cfg, Run(cfg, es))
    decreases |es|
  {
    if es == [] {
      LedgerRuns.RunKeeps(cfg.book, []);
      assert LedgerRuns.Execs(cfg.book, []) == State(Empty, {});
    } else {
      NetRun(cfg, es[..|es| - 1]);
      StepKeeps(cfg, Run(cfg, es[..|es| - 1]), es[|es| - 1]);
    }
  }

  // ----- network-wide safety

  /** With at most a third of the base Byzantine, in every run no two transactions that spend
      the same output, deposit or mint batch both gather a threshold of signers. */
  lemma {:induction false} NoConflictingQuorums(cfg: Config, es: seq<Event>, s: Snap, t: Snap)
    requires Tolerable(cfg)
    requires var n := Run(cfg, es);
             && |Answers(n, s) * cfg.keys| >= Threshold(cfg.base)
             && |Answers(n, t) * cfg.keys| >= Threshold(cfg.base)
    ensures !Conflict(cfg.book, cfg.carried(s), cfg.carried(t))
  {
    NetRun(cfg, es);
    var n := Run(cfg, es);
    CertifyKeeps(cfg, n, t);
    NoRival(cfg, CertifyStep(cfg, n, t), s, cfg.carried(t));
  }

  lemma {:induction false} GenesisConflictsWithNone(book: Book, g: Hash, h: Hash)
    requires book(g).inputs == [Genesis]
    ensures !Conflict(book, g, h) && !Conflict(book, h, g)
  {
    assert forall c: Claim :: !Claims(book(g), c);
  }

  /** No two honest nodes ever finalise conflicting transactions. */
  lemma {:induction false} NoConflictingFinals(cfg: Config, es: seq<Event>, i: Node, j: Node, g: Hash, h: Hash)
    requires Tolerable(cfg)
    requires var n := Run(cfg, es);
             && i in n.peers && g in n.peers[i].ledger.store.finals
             && j in n.peers && h in n.peers[j].ledger.store.finals
    ensures !Conflict(cfg.book, g, h)
  {
    NetRun(cfg, es);
    var n := Run(cfg, es);
    assert PeerInv(cfg.book, n.certs.Keys, n.peers[i]) && PeerInv(cfg.book, n.certs.Keys, n.peers[j]);
    if cfg.book(g).inputs == [Genesis] {
      GenesisConflictsWithNone(cfg.book, g, h);
    } else if cfg.book(h).inputs == [Genesis] {
      GenesisConflictsWithNone(cfg.book, h, g);
    }
  }

  lemma {:induction false} HolderIsCertified(cfg: Config, n: Net, p: Peer, y: Hash, c: Claim)
    requires Holds(cfg.book, n.certs.Keys, p, y) && Agreement(cfg.book, n.certs.Keys) && y in n.certs &&
             Claims(cfg.book(y), c)
    ensures Owner(p.ledger.store, c) == y
  {
    var g := Owner(p.ledger.store, c);
    if g in n.certs {
      assert !Conflict(cfg.book, g, y);
    }
  }

  /** An honest signer of a certified transaction keeps its inputs for it for ever. */
  lemma {:induction false} SignersKeepTheirWord(cfg: Config, es: seq<Event>, y: Hash, j: Node, c: Claim)
    requires Tolerable(cfg)
    requires var n := Run(cfg, es); y in n.certs && j in n.certs[y] && j in n.peers
    requires Claims(cfg.book(y), c)
    ensures Owner(Run(cfg, es).peers[j].ledger.store, c) == y
  {
    NetRun(cfg, es);
    var n := Run(cfg, es);
    assert CertInv(cfg, n.peers, y, n.certs[y]) && PeerInv(cfg.book, n.certs.Keys, n.peers[j]);
    HolderIsCertified(cfg, n, n.peers[j], y, c);
  }
}
