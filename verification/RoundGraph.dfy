/** The round graph: every chain has a head (cache) round and a final round, rounds refer to an
    earlier round of their own chain and to one of another chain, and the latest round of each
    other chain that was referred to is kept twice, in memory and in the store. */
module RoundGraph {

  type Hash = nat

  datatype Option<+T> = None | Some(value: T)

  datatype Link = Link(self: Hash, external: Hash)

  datatype Round = Round(node: Hash, number: nat, refs: Option<Link>)

  /** What a chain keeps in memory: the head's number and references, the final number, and the
      latest round referred to on each other chain. */
  datatype Chain = Chain(number: nat, refs: Link, final: nat, links: map<Hash, nat>)

  type Links = map<(Hash, Hash), nat>

  /** The store and the chains of one node.  `heads`, under node ids, and `finals`, under round
      hashes, are one table in the store.  `order` numbers the final rounds as they were
      written. */
  datatype World = World(heads: map<Hash, Round>, finals: map<Hash, Round>, links: Links, chains: map<Hash, Chain>,
                         order: map<Hash, nat>)

  function Read(w: World, h: Hash): Option<Round> {
    if h in w.heads then Some(w.heads[h]) else if h in w.finals then Some(w.finals[h]) else None
  }

  function Held(links: map<Hash, nat>, to: Hash): nat {
    if to in links then links[to] else 0
  }

  function Stored(links: Links, from: Hash, to: Hash): nat {
    if (from, to) in links then links[(from, to)] else 0
  }

  // ----- the store

  /** The assertions with which the store starts a round after the first. */
  predicate CanStart(w: World, node: Hash, number: nat, refs: Link) {
    var ext := Read(w, refs.external);
    && node in w.heads && w.heads[node].number + 1 == number
    && ext.Some? && ext.value.node != w.heads[node].node
    && Read(w, refs.self).None?
    && Stored(w.links, node, ext.value.node) <= ext.value.number
  }

  /** The old head becomes the final round under its hash, and a new head is written. */
  function StoreStart(w: World, node: Hash, number: nat, refs: Link): World
    requires CanStart(w, node, number, refs)
  {
    var ext := Read(w, refs.external).value;
    World(w.heads[node := Round(node, number, Some(refs))], w.finals[refs.self := w.heads[node]],
          w.links[(node, ext.node) := ext.number], w.chains, w.order[refs.self := |w.order|])
  }

  predicate CanUpdate(w: World, node: Hash, number: nat, refs: Link) {
    var ext := Read(w, refs.external);
    && node in w.heads && w.heads[node].number == number
    && w.heads[node].refs.Some? && w.heads[node].refs.value.self == refs.self
    && ext.Some? && ext.value.node != node
  }

  function StoreUpdate(w: World, node: Hash, number: nat, refs: Link): World
    requires CanUpdate(w, node, number, refs)
  {
    var ext := Read(w, refs.external).value;
    World(w.heads[node := Round(node, number, Some(refs))], w.finals, w.links[(node, ext.node) := ext.number],
          w.chains, w.order)
  }

  // ----- the kernel

  /** A reference may not go to the chain itself, nor back; `sane` is the verdict of the checks on
      time that are made before a round is final.  The last line is the panic that should never
      be reached. */
  predicate CanLink(w: World, node: Hash, c: Chain, ext: Round, sane: bool) {
    && ext.node != node && ext.number >= Held(c.links, ext.node) && sane
    && Held(c.links, ext.node) == Stored(w.links, node, ext.node)
  }

  /** A final snapshot may name an external round this node has not seen; the old external
      reference then stands in for it. */
  predicate IsDummy(w: World, refs: Link) {
    Read(w, refs.external).None?
  }

  /** `hash` is the hash of the head round that is closed. */
  function StartRound(w: World, node: Hash, refs: Link, hash: Hash, finalized: bool, sane: bool): Option<World> {
    if node !in w.chains || refs.self != hash then None
    else if IsDummy(w, refs) then
      var refs' := refs.(external := w.chains[node].refs.external);
      if !finalized || !CanStart(w, node, w.chains[node].number + 1, refs') then None
      else Some(Started(w, node, refs', w.chains[node].links))
    else
      var ext := Read(w, refs.external).value;
      if !CanLink(w, node, w.chains[node], ext, finalized || sane) then None
      else if !CanStart(w, node, w.chains[node].number + 1, refs) then None
      else Some(Started(w, node, refs, w.chains[node].links[ext.node := ext.number]))
  }

  function Started(w: World, node: Hash, refs: Link, links: map<Hash, nat>): World
    requires node in w.chains && CanStart(w, node, w.chains[node].number + 1, refs)
  {
    var n := w.chains[node].number;
    StoreStart(w, node, n + 1, refs).(chains := w.chains[node := Chain(n + 1, refs, n, links)])
  }

  /** An empty head may change its external reference. */
  function UpdateHead(w: World, node: Hash, refs: Link, sane: bool): Option<World> {
    if node !in w.chains || refs.self != w.chains[node].refs.self || Read(w, refs.external).None? then None
    else
      var c, ext := w.chains[node], Read(w, refs.external).value;
      if !CanLink(w, node, c, ext, sane) || !CanUpdate(w, node, c.number, refs) then None
      else
        Some(StoreUpdate(w, node, c.number, refs).(
             chains := w.chains[node := Chain(c.number, refs, c.final, c.links[ext.node := ext.number])]))
  }

  /** A node that has been accepted gets its first final round and a head that refers to it. */
  function Join(w: World, node: Hash, hash: Hash, external: Hash): Option<World> {
    if Read(w, node).Some? || hash == node then None
    else
      var w0 := w.(heads := w.heads[node := Round(node, 0, None)]);
      if !CanStart(w0, node, 1, Link(hash, external)) then None else Some(Joined(w0, node, Link(hash, external)))
  }

  function Joined(w: World, node: Hash, refs: Link): World
    requires CanStart(w, node, 1, refs)
  {
    var ext := Read(w, refs.external).value;
    StoreStart(w, node, 1, refs).(chains := w.chains[node := Chain(1, refs, 0, map[ext.node := ext.number])])
  }

  // ----- the invariant

  ghost predicate HeadInv(heads: map<Hash, Round>, a: Hash, c: Chain) {
    a in heads && heads[a] == Round(a, c.number, Some(c.refs)) && c.number == c.final + 1
  }

  ghost predicate LinksInv(links: Links, a: Hash, c: Chain) {
    forall n: Hash :: Held(c.links, n) == Stored(links, a, n)
  }

  /** The head refers to the final round before it and to the round its last link is about. */
  ghost predicate RefsInv(finals: map<Hash, Round>, a: Hash, c: Chain) {
    && c.refs.self in finals && finals[c.refs.self].node == a && finals[c.refs.self].number == c.final
    && c.refs.external in finals && finals[c.refs.external].node != a
    && Held(c.links, finals[c.refs.external].node) == finals[c.refs.external].number
  }

  ghost predicate ChainInv(w: World, a: Hash, c: Chain) {
    HeadInv(w.heads, a, c) && LinksInv(w.links, a, c) && RefsInv(w.finals, a, c)
  }

  ghost predicate ChainsInv(w: World) {
    && w.heads.Keys == w.chains.Keys && (forall k <- w.links :: k.0 in w.heads)
    && (forall a {:trigger ChainInv(w, a, w.chains[a])} | a in w.chains :: ChainInv(w, a, w.chains[a]))
  }

  /** The references of final round `h` were stored before it. */
  ghost predicate EarlierRefs(finals: map<Hash, Round>, order: map<Hash, nat>, h: Hash) {
    && h in finals && h in order && order[h] < |order|
    && var refs := finals[h].refs;
       refs.Some? ==>
         && refs.value.self in finals && refs.value.self in order && order[refs.value.self] < order[h]
         && refs.value.external in finals && refs.value.external in order && order[refs.value.external] < order[h]
  }

  ghost predicate StoredInv(finals: map<Hash, Round>, order: map<Hash, nat>) {
    finals.Keys == order.Keys &&
    forall h {:trigger EarlierRefs(finals, order, h)} | h in finals :: EarlierRefs(finals, order, h)
  }

  ghost predicate Inv(w: World) {
    ChainsInv(w) && StoredInv(w.finals, w.order) && w.heads.Keys !! w.finals.Keys
  }

  // ----- every step keeps it

  lemma {:induction false} StoredAppend(finals: map<Hash, Round>, order: map<Hash, nat>, hash: Hash, r: Round)
    requires StoredInv(finals, order) && hash !in finals
    requires r.refs.Some? ==> r.refs.value.self in finals && r.refs.value.external in finals
    ensures StoredInv(finals[hash := r], order[hash := |order|])
  {
    var finals', order' := finals[hash := r], order[hash := |order|];
    assert |order'| == |order| + 1;
    forall h <- finals'
      ensures EarlierRefs(finals', order', h)
    {
      if h != hash {
        assert EarlierRefs(finals, order, h);
      } else if r.refs.Some? {
        assert EarlierRefs(finals, order, r.refs.value.self);
        assert EarlierRefs(finals, order, r.refs.value.external);
      }
    }
  }

  /** A step of chain `node` leaves every other chain as it was. */
  lemma {:induction false} OtherChain(w: World, w': World, node: Hash, b: Hash)
    requires b in w.chains && b != node && ChainInv(w, b, w.chains[b])
    requires b in w'.heads && w'.heads[b] == w.heads[b]
    requires forall h <- w.finals :: h in w'.finals && w'.finals[h] == w.finals[h]
    requires forall n: Hash :: Stored(w'.links, b, n) == Stored(w.links, b, n)
    ensures ChainInv(w', b, w.chains[b])
  {
  }

  ghost predicate OneChainMoved(w: World, w': World, node: Hash, to: Hash, number: nat) {
    && node in w'.chains && w'.chains == w.chains[node := w'.chains[node]]
    && node in w'.heads && w'.heads == w.heads[node := w'.heads[node]]
    && w'.links == w.links[(node, to) := number]
    && (forall h <- w.finals :: h in w'.finals && w'.finals[h] == w.finals[h])
  }

  lemma {:induction false} ChainsStep(w: World, w': World, node: Hash, to: Hash, number: nat)
    requires ChainsInv(w) && OneChainMoved(w, w', node, to, number) && ChainInv(w', node, w'.chains[node])
    ensures ChainsInv(w')
  {
    forall b <- w'.chains | b != node
      ensures ChainInv(w', b, w'.chains[b])
    {
      assert ChainInv(w, b, w.chains[b]);
      OtherChain(w, w', node, b);
    }
  }

  lemma {:induction false} LinksFollow(links: Links, a: Hash, c: Chain, c': Chain, to: Hash, number: nat)
    requires LinksInv(links, a, c)
    requires forall n: Hash :: Held(c'.links, n) == if n == to then number else Held(c.links, n)
    ensures LinksInv(links[(a, to) := number], a, c')
  {
    forall n: Hash
      ensures Held(c'.links, n) == Stored(links[(a, to) := number], a, n)
    {
      assert Held(c.links, n) == Stored(links, a, n);
    }
  }

  /** Both kinds of start: the memory of the chain follows the link the store writes. */
  lemma {:induction false} StartedChain(w: World, node: Hash, refs: Link, links: map<Hash, nat>, ext: Round)
    requires node in w.chains && ChainInv(w, node, w.chains[node]) && CanStart(w, node, w.chains[node].number + 1, refs)
    requires refs.external !in w.heads && refs.external in w.finals && ext == w.finals[refs.external]
    requires forall n: Hash :: Held(links, n) == if n == ext.node then ext.number else Held(w.chains[node].links, n)
    ensures var w' := Started(w, node, refs, links);
            && ChainInv(w', node, w'.chains[node])
            && OneChainMoved(w, w', node, ext.node, ext.number)
            && w'.finals == w.finals[refs.self := w.heads[node]]
  {
    var c := w.chains[node];
    var c' := Chain(c.number + 1, refs, c.number, links);
    LinksFollow(w.links, node, c, c', ext.node, ext.number);
    assert RefsInv(w.finals[refs.self := w.heads[node]], node, c');
  }

  lemma {:induction false} StartedKeeps(w: World, node: Hash, refs: Link, links: map<Hash, nat>, ext: Round)
    requires Inv(w) && node in w.chains && CanStart(w, node, w.chains[node].number + 1, refs)
    requires refs.external !in w.heads && refs.external in w.finals && ext == w.finals[refs.external]
    requires forall n: Hash :: Held(links, n) == if n == ext.node then ext.number else Held(w.chains[node].links, n)
    ensures Inv(Started(w, node, refs, links))
  {
    assert ChainInv(w, node, w.chains[node]);
    StartedChain(w, node, refs, links, ext);
    ChainsStep(w, Started(w, node, refs, links), node, ext.node, ext.number);
    StoredAppend(w.finals, w.order, refs.self, w.heads[node]);
  }

  lemma {:induction false} StartKeeps(w: World, node: Hash, refs: Link, hash: Hash, finalized: bool, sane: bool)
    requires Inv(w) && StartRound(w, node, refs, hash, finalized, sane).Some?
    requires refs.external !in w.heads
    ensures Inv(StartRound(w, node, refs, hash, finalized, sane).value)
  {
    var c := w.chains[node];
    assert ChainInv(w, node, c);
    if IsDummy(w, refs) {
      StartedKeeps(w, node, refs.(external := c.refs.external), c.links, w.finals[c.refs.external]);
    } else {
      var ext := w.finals[refs.external];
      StartedKeeps(w, node, refs, c.links[ext.node := ext.number], ext);
    }
  }

  lemma {:induction false} UpdateKeeps(w: World, node: Hash, refs: Link, sane: bool)
    requires Inv(w) && UpdateHead(w, node, refs, sane).Some? && refs.external !in w.heads
    ensures Inv(UpdateHead(w, node, refs, sane).value)
  {
    var w', c := UpdateHead(w, node, refs, sane).value, w.chains[node];
    var ext := w.finals[refs.external];
    assert ChainInv(w, node, c);
    LinksFollow(w.links, node, c, w'.chains[node], ext.node, ext.number);
    assert w'.heads == w.heads[node := Round(node, c.number, Some(refs))] && w'.finals == w.finals;
    ChainsStep(w, w', node, ext.node, ext.number);
  }

  lemma {:induction false} JoinedChain(w: World, node: Hash, refs: Link, ext: Round)
    requires node in w.heads && w.heads[node] == Round(node, 0, None) && CanStart(w, node, 1, refs)
    requires refs.external !in w.heads && refs.external in w.finals && ext == w.finals[refs.external]
    requires forall n: Hash :: (node, n) !in w.links
    ensures var w' := Joined(w, node, refs);
            && ChainInv(w', node, w'.chains[node])
            && w'.links == w.links[(node, ext.node) := ext.number]
            && w'.finals == w.finals[refs.self := Round(node, 0, None)]
  {
    var none, c := Chain(0, Link(0, 0), 0, map[]), Chain(1, refs, 0, map[ext.node := ext.number]);
    assert LinksInv(w.links, node, none);
    LinksFollow(w.links, node, none, c, ext.node, ext.number);
    assert RefsInv(w.finals[refs.self := Round(node, 0, None)], node, c);
  }

  lemma {:induction false} JoinedMoves(w: World, w0: World, node: Hash, refs: Link, ext: Round)
    requires w0 == w.(heads := w.heads[node := Round(node, 0, None)]) && CanStart(w0, node, 1, refs)
    requires refs.external !in w0.heads && refs.external in w.finals && ext == w.finals[refs.external]
    ensures OneChainMoved(w, Joined(w0, node, refs), node, ext.node, ext.number)
  {
    var w' := Joined(w0, node, refs);
    assert w'.heads == w.heads[node := w'.heads[node]];
  }

  lemma {:induction false} JoinChains(w: World, w0: World, node: Hash, refs: Link, ext: Round)
    requires ChainsInv(w) && w0 == w.(heads := w.heads[node := Round(node, 0, None)]) && node !in w.heads
    requires CanStart(w0, node, 1, refs)
    requires refs.external !in w0.heads && refs.external in w.finals && ext == w.finals[refs.external]
    ensures ChainsInv(Joined(w0, node, refs))
  {
    JoinedChain(w0, node, refs, ext);
    JoinedMoves(w, w0, node, refs, ext);
    ChainsStep(w, Joined(w0, node, refs), node, ext.node, ext.number);
  }

  lemma {:induction false} JoinKeeps(w: World, node: Hash, hash: Hash, external: Hash)
    requires Inv(w) && Join(w, node, hash, external).Some? && external !in w.heads && external != node
    ensures Inv(Join(w, node, hash, external).value)
  {
    var w0 := w.(heads := w.heads[node := Round(node, 0, None)]);
    JoinChains(w, w0, node, Link(hash, external), w.finals[external]);
    StoredAppend(w.finals, w.order, hash, Round(node, 0, None));
  }

  /** A head whose external reference is no final round. */
  lemma {:induction false} DanglingHead(w: World, node: Hash)
    requires node in w.chains && w.chains[node].refs.external !in w.finals
    ensures !Inv(w)
  {
    assert !ChainInv(w, node, w.chains[node]);
  }

  /** Starting a round keeps the graph sound if and only if the external reference is not the id
      of a chain: under such a key the store finds a head, which will move. */
  lemma {:induction false} StartSoundIff(w: World, node: Hash, refs: Link, hash: Hash, finalized: bool, sane: bool)
    requires Inv(w) && StartRound(w, node, refs, hash, finalized, sane).Some?
    ensures Inv(StartRound(w, node, refs, hash, finalized, sane).value) <==> refs.external !in w.heads
  {
    if refs.external in w.heads {
      var w' := StartRound(w, node, refs, hash, finalized, sane).value;
      assert refs.external !in w'.finals;
      DanglingHead(w', node);
    } else {
      StartKeeps(w, node, refs, hash, finalized, sane);
    }
  }

  lemma {:induction false} UpdateSoundIff(w: World, node: Hash, refs: Link, sane: bool)
    requires Inv(w) && UpdateHead(w, node, refs, sane).Some?
    ensures Inv(UpdateHead(w, node, refs, sane).value) <==> refs.external !in w.heads
  {
    if refs.external in w.heads {
      var w' := UpdateHead(w, node, refs, sane).value;
      DanglingHead(w', node);
    } else {
      UpdateKeeps(w, node, refs, sane);
    }
  }

  lemma {:induction false} JoinSoundIff(w: World, node: Hash, hash: Hash, external: Hash)
    requires Inv(w) && Join(w, node, hash, external).Some?
    ensures Inv(Join(w, node, hash, external).value) <==> external !in w.heads
  {
    if external in w.heads {
      var w' := Join(w, node, hash, external).value;
      assert external !in w'.finals;
      DanglingHead(w', node);
    } else {
      JoinKeeps(w, node, hash, external);
    }
  }

  // ----- what every step and every run promise

  datatype Step =
    | Start(node: Hash, refs: Link, hash: Hash, finalized: bool, sane: bool)
    | Update(node: Hash, refs: Link, sane: bool)
    | Enter(node: Hash, hash: Hash, external: Hash)

  function Outcome(w: World, s: Step): Option<World> {
    match s
    case Start(node, refs, hash, finalized, sane) => StartRound(w, node, refs, hash, finalized, sane)
    case Update(node, refs, sane) => UpdateHead(w, node, refs, sane)
    case Enter(node, hash, external) => Join(w, node, hash, external)
  }

  /** A step that fails, or panics before its commit, changes nothing. */
  function Exec(w: World, s: Step): World {
    if Outcome(w, s).Some? then Outcome(w, s).value else w
  }

  function External(s: Step): Hash {
    match s
    case Start(_, refs, _, _, _) => refs.external
    case Update(_, refs, _) => refs.external
    case Enter(_, _, external) => external
  }

  /** External references are not ids of chains. */
  predicate Proper(w: World, s: Step) {
    External(s) !in w.heads && (s.Enter? ==> s.external != s.node)
  }

  lemma {:induction false} ExecKeeps(w: World, s: Step)
    requires Inv(w) && Proper(w, s)
    ensures Inv(Exec(w, s))
  {
    match s
    case Start(node, refs, hash, finalized, sane) =>
      if StartRound(w, node, refs, hash, finalized, sane).Some? { StartKeeps(w, node, refs, hash, finalized, sane); }
    case Update(node, refs, sane) =>
      if UpdateHead(w, node, refs, sane).Some? { UpdateKeeps(w, node, refs, sane); }
    case Enter(node, hash, external) =>
      if Join(w, node, hash, external).Some? { JoinKeeps(w, node, hash, external); }
  }

  /** `w'` differs from `w` by one link that does not go back and by new final rounds. */
  ghost predicate Grown(w: World, w': World) {
    && (forall a: Hash, b: Hash :: Stored(w'.links, a, b) >= Stored(w.links, a, b))
    && w.chains.Keys <= w'.chains.Keys
    && (forall h <- w.finals :: h in w'.finals && w'.finals[h] == w.finals[h])
  }

  lemma {:induction false} StartGrows(w: World, node: Hash, number: nat, refs: Link)
    requires CanStart(w, node, number, refs)
    ensures Grown(w, StoreStart(w, node, number, refs))
  {
  }

  lemma {:induction false} UpdateGrows(w: World, node: Hash, refs: Link, sane: bool)
    requires UpdateHead(w, node, refs, sane).Some?
    ensures Grown(w, UpdateHead(w, node, refs, sane).value)
  {
  }

  /** Links never go back in the store, and final rounds are never rewritten. */
  lemma {:induction false} StoreGrows(w: World, s: Step)
    ensures Grown(w, Exec(w, s))
  {
    match s {
      case Start(node, refs, hash, finalized, sane) =>
        if StartRound(w, node, refs, hash, finalized, sane).Some? {
          var refs' := if IsDummy(w, refs) then refs.(external := w.chains[node].refs.external) else refs;
          StartGrows(w, node, w.chains[node].number + 1, refs');
        }
      case Update(node, refs, sane) =>
        if UpdateHead(w, node, refs, sane).Some? {
          UpdateGrows(w, node, refs, sane);
        }
      case Enter(node, hash, external) =>
        if Join(w, node, hash, external).Some? {
          StartGrows(w.(heads := w.heads[node := Round(node, 0, None)]), node, 1, Link(hash, external));
        }
    }
  }

  /** Links never go back in memory either. */
  lemma {:induction false} LinksGrow(w: World, s: Step, a: Hash, b: Hash)
    requires Inv(w) && Proper(w, s) && a in w.chains
    ensures a in Exec(w, s).chains && Held(Exec(w, s).chains[a].links, b) >= Held(w.chains[a].links, b)
  {
    StoreGrows(w, s);
    ExecKeeps(w, s);
    LinksNeverDiverge(w, a, b);
    LinksNeverDiverge(Exec(w, s), a, b);
  }

  /** The panic on diverging links is never reached. */
  lemma {:induction false} LinksNeverDiverge(w: World, node: Hash, to: Hash)
    requires Inv(w) && node in w.chains
    ensures Held(w.chains[node].links, to) == Stored(w.links, node, to)
    ensures w.chains[node].number == w.chains[node].final + 1
  {
    assert ChainInv(w, node, w.chains[node]);
  }

  predicate Refers(r: Round, h: Hash) {
    r.refs.Some? && (h == r.refs.value.self || h == r.refs.value.external)
  }

  /** Each hash in `path` is a reference of the final round before it. */
  ghost predicate Path(finals: map<Hash, Round>, path: seq<Hash>) {
    path == [] || (path[0] in finals && (|path| > 1 ==> Refers(finals[path[0]], path[1])) && Path(finals, path[1..]))
  }

  /** Following references always ends: a path is no longer than the number of rounds stored up
      to its start. */
  lemma {:induction false} PathsEnd(w: World, path: seq<Hash>)
    requires Inv(w) && Path(w.finals, path) && path != []
    ensures path[0] in w.order && |path| <= w.order[path[0]] + 1
    decreases |path|
  {
    assert EarlierRefs(w.finals, w.order, path[0]);
    if |path| > 1 {
      PathsEnd(w, path[1..]);
    }
  }

  // ----- runs from genesis

  /** Every genesis node has a final round 0 without references and a head that refers to its own
      and another's. */
  ghost predicate Genesis(w: World) {
    && Inv(w) && (forall h <- w.finals :: w.finals[h].number == 0 && w.finals[h].refs.None?)
    && (forall a <- w.chains :: w.chains[a].number == 1)
  }

  function Run(w: World, steps: seq<Step>): World
    decreases |steps|
  {
    if steps == [] then w else Exec(Run(w, steps[..|steps| - 1]), steps[|steps| - 1])
  }

  /** No step of the run that succeeds refers to another chain by its id. */
  predicate RefersToRounds(w: World, steps: seq<Step>)
    decreases |steps|
  {
    steps == [] ||
    var before := steps[..|steps| - 1];
    var v, s := Run(w, before), steps[|steps| - 1];
    RefersToRounds(w, before) && (Outcome(v, s).Some? ==> External(s) !in v.heads)
  }

  ghost predicate SoundRun(w: World, steps: seq<Step>)
    decreases |steps|
  {
    Inv(Run(w, steps)) && (steps == [] || SoundRun(w, steps[..|steps| - 1]))
  }

  lemma {:induction false} ExecSoundIff(w: World, s: Step)
    requires Inv(w) && Outcome(w, s).Some?
    ensures Inv(Exec(w, s)) <==> External(s) !in w.heads
  {
    match s
    case Start(node, refs, hash, finalized, sane) => StartSoundIff(w, node, refs, hash, finalized, sane);
    case Update(node, refs, sane) => UpdateSoundIff(w, node, refs, sane);
    case Enter(node, hash, external) => JoinSoundIff(w, node, hash, external);
  }

  /** At every point of a run from genesis memory and store agree on the links, the head's number
      is the final's plus one, and references were stored earlier, if and only if no successful
      step refers to a chain by its id. */
  lemma {:induction false} GraphSafety(w: World, steps: seq<Step>)
    requires Genesis(w)
    ensures SoundRun(w, steps) <==> RefersToRounds(w, steps)
    decreases |steps|
  {
    if steps != [] {
      var before := steps[..|steps| - 1];
      GraphSafety(w, before);
      var v, s := Run(w, before), steps[|steps| - 1];
      if Inv(v) && Outcome(v, s).Some? {
        ExecSoundIff(v, s);
      }
    }
  }

  // ----- a reference to a chain id

  lemma {:induction false} StartIs(w: World, node: Hash, refs: Link, ext: Round)
    requires node in w.chains && Read(w, refs.external) == Some(ext)
    requires CanLink(w, node, w.chains[node], ext, true) && CanStart(w, node, w.chains[node].number + 1, refs)
    ensures Exec(w, Start(node, refs, refs.self, true, true)) ==
            Started(w, node, refs, w.chains[node].links[ext.node := ext.number])
  {
  }

  /** In any state in which a chain refers to another by its id and that chain has moved on since,
      a round started with an external reference not seen yet makes memory and store disagree. */
  lemma {:induction false} DummyDiverges(w: World, a: Hash, b: Hash, h: Hash, missing: Hash)
    requires a in w.chains && a in w.heads && b in w.heads && w.heads[a].node == a && w.heads[b].node == b && a != b
    requires w.heads[a].number == w.chains[a].number && w.chains[a].refs.external == b
    requires Held(w.chains[a].links, b) == Stored(w.links, a, b) < w.heads[b].number
    requires Read(w, h).None? && Read(w, missing).None?
    ensures var w' := Exec(w, Start(a, Link(h, missing), h, true, true));
            a in w'.chains && Held(w'.chains[a].links, b) < Stored(w'.links, a, b)
  {
    assert CanStart(w, a, w.chains[a].number + 1, Link(h, b));
  }

  /** Two chains, each at its first head. */
  ghost predicate Pair(w: World) {
    && w.heads == map[1 := Round(1, 1, Some(Link(11, 12))), 2 := Round(2, 1, Some(Link(12, 11)))]
    && w.finals == map[11 := Round(1, 0, None), 12 := Round(2, 0, None)]
    && w.links == map[(1, 2) := 0, (2, 1) := 0]
    && w.chains == map[1 := Chain(1, Link(11, 12), 0, map[2 := 0]), 2 := Chain(1, Link(12, 11), 0, map[1 := 0])]
    && w.order == map[11 := 0, 12 := 1]
  }

  lemma {:induction false} PairChain(w: World, a: Hash, b: Hash, c: Chain)
    requires a != b && c == Chain(1, Link(10 + a, 10 + b), 0, map[b := 0])
    requires a in w.heads && w.heads[a] == Round(a, 1, Some(Link(10 + a, 10 + b)))
    requires 10 + a in w.finals && 10 + b in w.finals && w.finals[10 + a] == Round(a, 0, None) &&
             w.finals[10 + b] == Round(b, 0, None)
    requires forall k <- w.links :: w.links[k] == 0
    ensures ChainInv(w, a, c)
  {
  }

  lemma {:induction false} PairChains(w: World)
    requires Pair(w)
    ensures ChainsInv(w)
  {
    PairChain(w, 1, 2, w.chains[1]);
    PairChain(w, 2, 1, w.chains[2]);
  }

  lemma {:induction false} PairStored(w: World)
    requires Pair(w)
    ensures StoredInv(w.finals, w.order) && w.heads.Keys !! w.finals.Keys
    ensures forall h <- w.finals :: w.finals[h].number == 0 && w.finals[h].refs.None?
    ensures forall a <- w.chains :: w.chains[a].number == 1
  {
    assert |w.order| == 2;
  }

  lemma {:induction false} PairIsGenesis(w: World)
    requires Pair(w)
    ensures Genesis(w)
  {
    PairChains(w);
    PairStored(w);
  }

  /** Chain 1 refers to chain 2 by its id. */
  lemma {:induction false} PairFirst(w: World) returns (w': World)
    requires Pair(w)
    ensures w' == Exec(w, Start(1, Link(21, 2), 21, true, true))
    ensures w'.heads == map[1 := Round(1, 2, Some(Link(21, 2))), 2 := Round(2, 1, Some(Link(12, 11)))]
    ensures w'.finals == map[11 := Round(1, 0, None), 12 := Round(2, 0, None), 21 := Round(1, 1, Some(Link(11, 12)))]
    ensures w'.links == map[(1, 2) := 1, (2, 1) := 0]
    ensures w'.chains == map[1 := Chain(2, Link(21, 2), 1, map[2 := 1]), 2 := Chain(1, Link(12, 11), 0, map[1 := 0])]
  {
    StartIs(w, 1, Link(21, 2), w.heads[2]);
    w' := Started(w, 1, Link(21, 2), map[2 := 0][2 := 1]);
    assert map[2 := 0][2 := 1] == map[2 := 1];
  }

  /** Chain 2 closes its round. */
  lemma {:induction false} PairSecond(w: World) returns (w': World)
    requires w.heads == map[1 := Round(1, 2, Some(Link(21, 2))), 2 := Round(2, 1, Some(Link(12, 11)))]
    requires w.finals == map[11 := Round(1, 0, None), 12 := Round(2, 0, None), 21 := Round(1, 1, Some(Link(11, 12)))]
    requires w.links == map[(1, 2) := 1, (2, 1) := 0]
    requires w.chains == map[1 := Chain(2, Link(21, 2), 1, map[2 := 1]), 2 := Chain(1, Link(12, 11), 0, map[1 := 0])]
    ensures w' == Exec(w, Start(2, Link(22, 11), 22, true, true))
    ensures w'.heads == map[1 := Round(1, 2, Some(Link(21, 2))), 2 := Round(2, 2, Some(Link(22, 11)))]
    ensures w'.finals.Keys == {11, 12, 21, 22}
    ensures w'.links == map[(1, 2) := 1, (2, 1) := 0]
    ensures 1 in w'.chains && w'.chains[1] == Chain(2, Link(21, 2), 1, map[2 := 1])
  {
    StartIs(w, 2, Link(22, 11), w.finals[11]);
    w' := Started(w, 2, Link(22, 11), map[1 := 0][1 := 0]);
  }

  lemma {:induction false} RunThree(w: World, a: Step, b: Step, c: Step)
    ensures Run(w, [a, b, c]) == Exec(Exec(Exec(w, a), b), c)
  {
    assert [a, b, c][..2] == [a, b] && [a, b][..1] == [a] && [a][..0] == [];
    assert Run(w, [a]) == Exec(w, a);
    assert Run(w, [a, b]) == Exec(Run(w, [a]), b);
  }

  /** Chain 1 starts a round with an external reference it has not seen. */
  lemma {:induction false} PairThird(w: World) returns (w': World)
    requires w.heads == map[1 := Round(1, 2, Some(Link(21, 2))), 2 := Round(2, 2, Some(Link(22, 11)))]
    requires w.finals.Keys == {11, 12, 21, 22}
    requires w.links == map[(1, 2) := 1, (2, 1) := 0]
    requires 1 in w.chains && w.chains[1] == Chain(2, Link(21, 2), 1, map[2 := 1])
    ensures w' == Exec(w, Start(1, Link(31, 99), 31, true, true))
    ensures 1 in w'.chains && Held(w'.chains[1].links, 2) != Stored(w'.links, 1, 2)
  {
    w' := Exec(w, Start(1, Link(31, 99), 31, true, true));
    DummyDiverges(w, 1, 2, 31, 99);
  }

  /** From a genesis of two nodes, three rounds are enough. */
  lemma {:induction false} ByIdExample(w: World)
    requires Pair(w)
    ensures Genesis(w)
    ensures var w' := Run(w, [Start(1, Link(21, 2), 21, true, true), Start(2, Link(22, 11), 22, true, true),
                              Start(1, Link(31, 99), 31, true, true)]);
            1 in w'.chains && Held(w'.chains[1].links, 2) != Stored(w'.links, 1, 2)
  {
    PairIsGenesis(w);
    var s1, s2, s3 := Start(1, Link(21, 2), 21, true, true), Start(2, Link(22, 11), 22, true, true),
        Start(1, Link(31, 99), 31, true, true);
    RunThree(w, s1, s2, s3);
    var w1 := PairFirst(w);
    var w2 := PairSecond(w1);
    var w3 := PairThird(w2);
    assert Run(w, [s1, s2, s3]) == w3;
  }

  // ----- the kernel's state in place

  /** The tables of the store and the chains in memory. */
  class Kernel {
    var heads: map<Hash, Round>
    var finals: map<Hash, Round>
    var links: Links
    var chains: map<Hash, Chain>
    var order: map<Hash, nat>

    ghost function State(): World
      reads this
    {
      World(heads, finals, links, chains, order)
    }

    constructor (w: World)
      ensures State() == w
    {
      heads, finals, links, chains, order := w.heads, w.finals, w.links, w.chains, w.order;
    }

    method ReadRound(h: Hash) returns (r: Option<Round>)
      ensures r == Read(State(), h)
    {
      if h in heads {
        return Some(heads[h]);
      } else if h in finals {
        return Some(finals[h]);
      }
      return None;
    }

    /** The link in memory moves first; nothing else may change if this is refused. */
    method UpdateExternal(node: Hash, ext: Round, sane: bool) returns (ok: bool)
      requires node in chains
      modifies this`chains
      ensures ok == CanLink(old(State()), node, old(chains)[node], ext, sane)
      ensures var c := old(chains)[node];
              chains == if ok then old(chains)[node := c.(links := c.links[ext.node := ext.number])] else old(chains)
    {
      var c := chains[node];
      if node == ext.node || ext.number < Held(c.links, ext.node) {
        return false;
      }
      if Stored(links, node, ext.node) != Held(c.links, ext.node) {
        return false;
      }
      if !sane {
        return false;
      }
      chains := chains[node := c.(links := c.links[ext.node := ext.number])];
      return true;
    }

    /** The store's part, after the link in memory has moved. */
    method Persist(node: Hash, refs: Link, ghost w: World)
      requires node in w.chains && CanStart(w, node, w.chains[node].number + 1, refs)
      requires node in chains && chains[node].number == w.chains[node].number
      requires State() == w.(chains := w.chains[node := chains[node]])
      modifies this
      ensures State() == Started(w, node, refs, old(chains)[node].links)
    {
      var external := ReadRound(refs.external);
      var ext, n := external.value, chains[node].number;
      finals, order := finals[refs.self := heads[node]], order[refs.self := |order|];
      heads := heads[node := Round(node, n + 1, Some(refs))];
      links := links[(node, ext.node) := ext.number];
      chains := chains[node := Chain(n + 1, refs, n, chains[node].links)];
    }

    /** A reference not seen yet is replaced by the old one, but only in a final snapshot. */
    method ValidateNewRound(node: Hash, refs: Link, finalized: bool, sane: bool) returns (ok: bool, refs': Link)
      requires node in chains
      modifies this`chains
      ensures ok == Admits(old(State()), node, refs, finalized, sane)
      ensures ok ==> node in chains && Linked(old(State()), node, refs, refs', chains[node].links)
      ensures ok ==> chains == old(chains)[node := chains[node]] && chains[node].number == old(chains)[node].number
      ensures !ok ==> chains == old(chains)
    {
      refs' := refs;
      var external := ReadRound(refs.external);
      if external.None? {
        refs' := refs.(external := chains[node].refs.external);
        return finalized, refs';
      }
      ok := UpdateExternal(node, external.value, finalized || sane);
    }

    /** The store's assertions on starting a round. */
    method CheckStart(node: Hash, number: nat, refs: Link) returns (ok: bool)
      ensures ok == CanStart(State(), node, number, refs)
    {
      if node !in heads || heads[node].number + 1 != number {
        return false;
      }
      var external := ReadRound(refs.external);
      if external.None? || external.value.node == heads[node].node {
        return false;
      }
      var previous := ReadRound(refs.self);
      if previous.Some? {
        return false;
      }
      return Stored(links, node, external.value.node) <= external.value.number;
    }

    /** The whole step, as specified.  From a sound state, with a reference that is no chain id, it
        reaches a sound state. */
    method StartNewRoundAndPersist(node: Hash, refs: Link, hash: Hash, finalized: bool, sane: bool) returns (ok: bool)
      modifies this
      ensures ok == StartRound(old(State()), node, refs, hash, finalized, sane).Some?
      ensures ok ==> State() == StartRound(old(State()), node, refs, hash, finalized, sane).value
      ensures !ok ==> State() == old(State()).(chains := chains)
      ensures ok && Inv(old(State())) && refs.external !in old(heads) ==> Inv(State())
    {
      if node !in chains || refs.self != hash {
        return false;
      }
      ghost var w := State();
      var valid, refs' := ValidateNewRound(node, refs, finalized, sane);
      if !valid {
        return false;
      }
      StartIsStarted(w, node, refs, hash, finalized, sane, refs', chains[node].links);
      ok := CheckStart(node, chains[node].number + 1, refs');
      if ok {
        Persist(node, refs', w);
      }
    }

    method PersistUpdate(node: Hash, refs: Link, ext: Round, ghost w: World)
      requires node in w.chains && node in chains
      requires chains[node] == w.chains[node].(links := w.chains[node].links[ext.node := ext.number])
      requires State() == w.(chains := w.chains[node := chains[node]])
      modifies this
      ensures State() == Updated(w, node, refs, ext)
    {
      var c := chains[node];
      links := links[(node, ext.node) := ext.number];
      heads := heads[node := Round(node, c.number, Some(refs))];
      chains := chains[node := Chain(c.number, refs, c.final, c.links)];
    }

    /** The store's assertions on an update. */
    method CheckUpdate(node: Hash, number: nat, refs: Link) returns (ok: bool)
      ensures ok == CanUpdate(State(), node, number, refs)
    {
      if node !in heads || heads[node].number != number || heads[node].refs.None? ||
          heads[node].refs.value.self != refs.self {
        return false;
      }
      var external := ReadRound(refs.external);
      return external.Some? && external.value.node != node;
    }

    /** An empty head takes another external reference, as specified.  From a sound state, with a
        reference that is no chain id, the store's assertions always hold, a refusal changes nothing
        and the state stays sound. */
    method UpdateEmptyHeadRoundAndPersist(node: Hash, refs: Link, sane: bool) returns (ok: bool)
      modifies this
      ensures ok == UpdateHead(old(State()), node, refs, sane).Some?
      ensures ok ==> State() == UpdateHead(old(State()), node, refs, sane).value
      ensures !ok ==> State() == old(State()).(chains := chains)
      ensures Inv(old(State())) && refs.external !in old(heads) ==> Inv(State()) && (!ok ==> State() == old(State()))
    {
      if node !in chains || refs.self != chains[node].refs.self {
        return false;
      }
      var external := ReadRound(refs.external);
      if external.None? {
        return false;
      }
      ghost var w := State();
      UpdateIs(w, node, refs, sane);
      ok := UpdateExternal(node, external.value, sane);
      if ok {
        ok := CheckUpdate(node, chains[node].number, refs);
        if ok {
          PersistUpdate(node, refs, external.value, w);
        }
      }
    }
  }

  predicate Admits(w: World, node: Hash, refs: Link, finalized: bool, sane: bool)
    requires node in w.chains
  {
    if IsDummy(w, refs) then finalized
    else CanLink(w, node, w.chains[node], Read(w, refs.external).value, finalized || sane)
  }

  ghost predicate Linked(w: World, node: Hash, refs: Link, refs': Link, links: map<Hash, nat>)
    requires node in w.chains
  {
    if IsDummy(w, refs) then refs' == refs.(external := w.chains[node].refs.external) && links == w.chains[node].links
    else var ext := Read(w, refs.external).value; refs' == refs && links == w.chains[node].links[ext.node := ext.number]
  }

  function Updated(w: World, node: Hash, refs: Link, ext: Round): World
    requires node in w.chains
  {
    var c := w.chains[node];
    World(w.heads[node := Round(node, c.number, Some(refs))], w.finals, w.links[(node, ext.node) := ext.number],
          w.chains[node := Chain(c.number, refs, c.final, c.links[ext.node := ext.number])], w.order)
  }

  /** In a sound state the store's assertions on an update always hold. */
  lemma {:induction false} UpdateIs(w: World, node: Hash, refs: Link, sane: bool)
    requires node in w.chains && refs.self == w.chains[node].refs.self && Read(w, refs.external).Some?
    ensures var c, ext := w.chains[node], Read(w, refs.external).value;
            && UpdateHead(w, node, refs, sane) ==
               (if CanLink(w, node, c, ext, sane) && CanUpdate(w, node, c.number, refs)
                then Some(Updated(w, node, refs, ext)) else None)
            && (Inv(w) && refs.external !in w.heads && CanLink(w, node, c, ext, sane) ==>
                  CanUpdate(w, node, c.number, refs) && Inv(Updated(w, node, refs, ext)))
  {
    if Inv(w) && refs.external !in w.heads && CanLink(w, node, w.chains[node], Read(w, refs.external).value, sane) {
      assert ChainInv(w, node, w.chains[node]);
      UpdateKeeps(w, node, refs, sane);
    }
  }

  lemma {:induction false} StartIsStarted(w: World, node: Hash, refs: Link, hash: Hash, finalized: bool, sane: bool,
                                          refs': Link, links: map<Hash, nat>)
    requires node in w.chains && refs.self == hash && Admits(w, node, refs, finalized, sane) &&
             Linked(w, node, refs, refs', links)
    ensures StartRound(w, node, refs, hash, finalized, sane) ==
            if CanStart(w, node, w.chains[node].number + 1, refs') then Some(Started(w, node, refs', links)) else None
    ensures Inv(w) && refs.external !in w.heads && CanStart(w, node, w.chains[node].number + 1, refs') ==>
            Inv(Started(w, node, refs', links))
  {
    if Inv(w) && refs.external !in w.heads && CanStart(w, node, w.chains[node].number + 1, refs') {
      StartKeeps(w, node, refs, hash, finalized, sane);
    }
  }

  /** In a sound state the store's assertions other than a fresh hash always hold. */
  lemma {:induction false} FreshStarts(w: World, node: Hash, refs: Link, hash: Hash, finalized: bool, sane: bool,
                                       refs': Link, links: map<Hash, nat>)
    requires Inv(w) && refs.external !in w.heads && node in w.chains && refs.self == hash && Read(w, hash).None?
    requires Admits(w, node, refs, finalized, sane) && Linked(w, node, refs, refs', links)
    ensures CanStart(w, node, w.chains[node].number + 1, refs')
  {
    assert ChainInv(w, node, w.chains[node]);
    LinksNeverDiverge(w, node, w.finals[w.chains[node].refs.external].node);
  }
}
