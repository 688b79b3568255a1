/** Exactly which steps of the round graph succeed, and what they leave, read back through the store
    and the links. */
module RoundGraphSteps {
  import opened RoundGraph

  /** The highest round of chain `to` that chain `from` refers to, in memory. */
  function Known(w: World, from: Hash, to: Hash): nat
    requires from in w.chains
  {
    Held(w.chains[from].links, to)
  }

  /** The link of `node` to the chain of `ext` is now at `ext`; no other link moved, in memory or in
      the store. */
  ghost predicate LinkMoved(w: World, w': World, node: Hash, ext: Round) {
    && node in w'.chains
    && (forall b <- w.chains | b != node :: b in w'.chains && w'.chains[b] == w.chains[b])
    && (forall to: Hash :: Known(w', node, to) ==
          if to == ext.node then ext.number else if node in w.chains then Known(w, node, to) else 0)
    && (forall from: Hash, to: Hash :: Stored(w'.links, from, to) ==
          if from == node && to == ext.node then ext.number else Stored(w.links, from, to))
  }

  /** The rounds that can be read are the same but for the head of `node` and, if given, the round it
      closed. */
  ghost predicate OnlyRead(w: World, w': World, node: Hash, closed: Option<Hash>) {
    forall h: Hash | h != node && closed != Some(h) :: Read(w', h) == Read(w, h)
  }

  // ----- starting a round

  /** The external round may be referred to: it is of another chain, not before what the chain knows,
      and recent enough unless the snapshot is final. */
  ghost predicate MayRefer(w: World, node: Hash, ext: Round, sane: bool)
    requires node in w.chains
  {
    ext.node != node && Known(w, node, ext.node) <= ext.number && sane
  }

  /** The round that the new head refers to: the one named, or, if that is unknown, the one before. */
  function Referred(w: World, node: Hash, refs: Link): Hash
    requires node in w.chains
  {
    if Read(w, refs.external).Some? then refs.external else w.chains[node].refs.external
  }

  lemma {:induction false} StandInPasses(w: World, node: Hash, refs: Link)
    requires Inv(w) && node in w.chains && Read(w, refs.self).None?
    ensures var e := w.chains[node].refs.external;
            CanStart(w, node, w.chains[node].number + 1, refs.(external := e)) && e in w.finals && e !in w.heads
  {
    assert ChainInv(w, node, w.chains[node]);
  }

  lemma {:induction false} NamedPasses(w: World, node: Hash, refs: Link, sane: bool)
    requires Inv(w) && node in w.chains && Read(w, refs.external).Some?
    ensures var ext := Read(w, refs.external).value;
            CanLink(w, node, w.chains[node], ext, sane) && CanStart(w, node, w.chains[node].number + 1, refs) <==>
            MayRefer(w, node, ext, sane) && Read(w, refs.self).None?
  {
    assert ChainInv(w, node, w.chains[node]);
  }

  /** In every state of the invariant a round is started exactly if the closed round's hash is right
      and new, and the external round may be referred to or, for a final snapshot, is unknown. */
  lemma {:induction false} StartIff(w: World, node: Hash, refs: Link, hash: Hash, finalized: bool, sane: bool)
    requires Inv(w)
    ensures StartRound(w, node, refs, hash, finalized, sane).Some? <==>
            && node in w.chains && refs.self == hash && hash !in w.heads && hash !in w.finals
            && (if Read(w, refs.external).Some?
                then MayRefer(w, node, Read(w, refs.external).value, finalized || sane) else finalized)
  {
    if node in w.chains && refs.self == hash {
      if Read(w, refs.external).Some? {
        NamedPasses(w, node, refs, finalized || sane);
      } else if hash !in w.heads && hash !in w.finals {
        StandInPasses(w, node, refs);
      }
    }
  }

  /** Then the head moves on by one round and refers to that round, the old head is final under its
      hash, the link follows, and nothing else changes. */
  lemma {:induction false} StartEffect(w: World, node: Hash, refs: Link, hash: Hash, finalized: bool, sane: bool)
    requires Inv(w) && StartRound(w, node, refs, hash, finalized, sane).Some?
    ensures var w', c := StartRound(w, node, refs, hash, finalized, sane).value, w.chains[node];
            var e := Referred(w, node, refs);
            && Read(w, e).Some? && node in w'.chains
            && Read(w', node) == Some(Round(node, c.number + 1, Some(Link(hash, e))))
            && Read(w', hash) == Read(w, node) == Some(Round(node, c.number, Some(c.refs)))
            && w'.chains[node].number == c.number + 1 && w'.chains[node].final == c.number
            && w'.chains[node].refs == Link(hash, e)
            && LinkMoved(w, w', node, Read(w, e).value) && OnlyRead(w, w', node, Some(hash))
  {
    var c := w.chains[node];
    assert ChainInv(w, node, c);
    var e := Referred(w, node, refs);
    if IsDummy(w, refs) {
      StandInPasses(w, node, refs);
    }
    var ext := Read(w, e).value;
    var links := if IsDummy(w, refs) then c.links else c.links[ext.node := ext.number];
    StartedEffect(w, node, Link(hash, e), links, ext);
  }

  lemma {:induction false} StartedEffect(w: World, node: Hash, refs: Link, links: map<Hash, nat>, ext: Round)
    requires node in w.chains && ChainInv(w, node, w.chains[node]) && Read(w, refs.external) == Some(ext)
    requires CanStart(w, node, w.chains[node].number + 1, refs)
    requires forall n: Hash :: Held(links, n) == if n == ext.node then ext.number else Held(w.chains[node].links, n)
    ensures var w', c := Started(w, node, refs, links), w.chains[node];
            && Read(w', node) == Some(Round(node, c.number + 1, Some(refs)))
            && Read(w', refs.self) == Read(w, node) == Some(Round(node, c.number, Some(c.refs)))
            && w'.chains[node].number == c.number + 1 && w'.chains[node].final == c.number
            && w'.chains[node].refs == refs
            && LinkMoved(w, w', node, ext) && OnlyRead(w, w', node, Some(refs.self))
  {
  }

  // ----- changing the references of the head

  lemma {:induction false} UpdateIff(w: World, node: Hash, refs: Link, sane: bool)
    requires Inv(w)
    ensures UpdateHead(w, node, refs, sane).Some? <==>
            && node in w.chains && refs.self == w.chains[node].refs.self && Read(w, refs.external).Some?
            && MayRefer(w, node, Read(w, refs.external).value, sane)
  {
    if node in w.chains {
      assert ChainInv(w, node, w.chains[node]);
    }
  }

  /** The head stays where it is and refers to the new round; the link follows. */
  lemma {:induction false} UpdateEffect(w: World, node: Hash, refs: Link, sane: bool)
    requires Inv(w) && UpdateHead(w, node, refs, sane).Some?
    ensures var w', c := UpdateHead(w, node, refs, sane).value, w.chains[node];
            && node in w'.chains && Read(w', node) == Some(Round(node, c.number, Some(refs)))
            && w'.chains[node].number == c.number && w'.chains[node].final == c.final && w'.chains[node].refs == refs
            && LinkMoved(w, w', node, Read(w, refs.external).value) && OnlyRead(w, w', node, None)
  {
  }

  // ----- joining

  lemma {:induction false} JoinIff(w: World, node: Hash, hash: Hash, external: Hash)
    requires Inv(w)
    ensures Join(w, node, hash, external).Some? <==>
            && Read(w, node).None? && Read(w, hash).None? && hash != node
            && Read(w, external).Some? && Read(w, external).value.node != node
  {
    var w0 := w.(heads := w.heads[node := Round(node, 0, None)]);
    if Read(w, node).None? {
      assert forall n: Hash :: Stored(w.links, node, n) == 0;
    }
  }

  /** The new chain has its first round final and a head that refers to it. */
  lemma {:induction false} JoinEffect(w: World, node: Hash, hash: Hash, external: Hash)
    requires Inv(w) && Join(w, node, hash, external).Some?
    ensures var w' := Join(w, node, hash, external).value;
            && Read(w, external).Some? && node in w'.chains
            && Read(w', hash) == Some(Round(node, 0, None))
            && Read(w', node) == Some(Round(node, 1, Some(Link(hash, external))))
            && w'.chains[node].number == 1 && w'.chains[node].final == 0
            && w'.chains[node].refs == Link(hash, external)
            && LinkMoved(w, w', node, Read(w, external).value) && OnlyRead(w, w', node, Some(hash))
  {
  }
}
