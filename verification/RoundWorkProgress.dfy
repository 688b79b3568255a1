/** The aggregator gets on: from every state of every run it can count all work of a chain whose
    leader signed everything. */
module RoundWorkProgress {
  import opened RoundWork

  /** The signed snapshots of a round carry the leader's signature and a time, and are of one day. */
  ghost predicate Sound(st: State, c: Node, r: nat) {
    forall s <- st.all | s.chain == c && s.round == r && s.signers != {} ::
      c in s.signers && s.ts > 0 && forall t <- st.all | t.chain == c && t.round == r :: DayOf(t) == DayOf(s)
  }

  ghost predicate Nonempty(st: State, c: Node, r: nat) {
    exists s <- st.all :: s.chain == c && s.round == r
  }

  ghost predicate AllCounted(st: State, c: Node) {
    forall s <- st.all | s.chain == c :: IsCounted(st, s)
  }

  /** The aggregator is at the head, round `cache`, with everything counted. */
  ghost predicate CaughtUp(st: State, c: Node, cache: nat) {
    AllCounted(st, c) && c in st.chains && st.chains[c].cache == cache && st.chains[c].round == cache
  }

  function Cycle(c: Node, first: Snap): seq<Event> {
    [ReadNumber(c), ReadWorks(c), WriteWorks(c, first)]
  }

  lemma {:induction false} RunOn(es: seq<Event>, a: Event, b: Event, d: Event)
    ensures Run(es + [a, b, d]) == Exec(Exec(Exec(Run(es), a), b), d)
  {
    var e1, e2, e3 := es + [a], es + [a, b], es + [a, b, d];
    assert e1[..|es|] == es && e2[..|es| + 1] == e1 && e3[..|es| + 2] == e2;
    assert Run(e2) == Exec(Run(e1), b);
    assert Run(e3) == Exec(Run(e2), d);
  }

  /** Only chain `c` moved, to `k`. */
  ghost predicate Became(st: State, st': State, c: Node, k: Chain) {
    && st'.all == st.all && st'.kept == st.kept && st'.chains == st.chains[c := k]
  }

  function Loaded(k: Chain, snaps: set<Snap>): Chain {
    Chain(k.cache, k.off, k.counted, k.round, HasWorks(k.cache, snaps))
  }

  lemma {:induction false} FirstRead(st: State, c: Node) returns (st': State)
    requires Inv(st) && c in st.chains && st.chains[c].pc.Idle?
    ensures st' == Exec(st, ReadNumber(c)) && Inv(st')
    ensures var k := st.chains[c]; Became(st, st', c, Chain(k.cache, k.off, k.counted, k.round, HasNumber(k.cache)))
  {
    st' := Exec(st, ReadNumber(c));
    ExecKeeps(st, ReadNumber(c));
  }

  lemma {:induction false} SecondRead(st: State, c: Node, k: Chain) returns (st': State)
    requires Inv(st) && c in st.chains && Nonempty(st, c, k.round)
    requires st.chains[c] == Chain(k.cache, k.off, k.counted, k.round, HasNumber(k.cache))
    ensures st' == Exec(st, ReadWorks(c)) && Inv(st')
    ensures Became(st, st', c, Loaded(k, InRound(st.all, c, k.round)))
  {
    st' := Exec(st, ReadWorks(c));
    ExecKeeps(st, ReadWorks(c));
    assert ChainInv(st.all, st.kept, c, st.chains[c]);
    assert InRound(st.kept, c, k.round) == InRound(st.all, c, k.round);
    var s :| s in st.all && s.chain == c && s.round == k.round;
    assert s in InRound(st.all, c, k.round);
  }

  /** What the two reads of a cycle bring. */
  lemma {:induction false} ReadBrings(st: State, c: Node) returns (st': State)
    requires Inv(st) && c in st.chains && st.chains[c].pc.Idle? && Nonempty(st, c, st.chains[c].round)
    ensures st' == Exec(Exec(st, ReadNumber(c)), ReadWorks(c)) && Inv(st')
    ensures Became(st, st', c, Loaded(st.chains[c], InRound(st.all, c, st.chains[c].round)))
  {
    var mid := FirstRead(st, c);
    assert Nonempty(mid, c, st.chains[c].round);
    st' := SecondRead(mid, c, st.chains[c]);
  }

  /** A sound round can be credited. */
  lemma {:induction false} SoundIsCreditable(st: State, c: Node, k: Chain, r: nat)
    requires Sound(st, c, r)
    ensures Creditable(c, Fresh(k, r, InRound(st.all, c, r)))
  {
  }

  /** After one cycle the offset is at the round, with all its snapshots counted, and the aggregator
      is at the next round if this one was closed. */
  ghost predicate Cycled(st: State, st': State, c: Node)
    requires c in st.chains
  {
    var k := st.chains[c];
    && st'.all == st.all
    && st'.chains == st.chains[c := Chain(k.cache, k.round, Hashes(InRound(st.all, c, k.round)),
                                          if k.round < k.cache then k.round + 1 else k.round, Idle)]
  }

  ghost predicate CanCycle(st: State, c: Node, first: Snap) {
    && c in st.chains && st.chains[c].pc.Idle?
    && Nonempty(st, c, st.chains[c].round) && Sound(st, c, st.chains[c].round)
    && var newly := Fresh(st.chains[c], st.chains[c].round, InRound(st.all, c, st.chains[c].round));
       newly != {} ==> first in newly
  }

  lemma {:induction false} CycledIs(st: State, mid: State, st': State, c: Node, k: Chain)
    requires c in st.chains && k == st.chains[c] && Became(st, mid, c, Loaded(k, InRound(st.all, c, k.round)))
    requires st'.all == mid.all
    requires st'.chains == mid.chains[c := Chain(k.cache, k.round, Hashes(InRound(mid.all, c, k.round)),
                                                 if k.round < k.cache then k.round + 1 else k.round, Idle)]
    ensures Cycled(st, st', c)
  {
  }

  lemma {:induction false} WriteAfterRead(st: State, mid: State, c: Node, first: Snap) returns (st': State)
    requires CanCycle(st, c, first) && Inv(mid)
    requires Became(st, mid, c, Loaded(st.chains[c], InRound(st.all, c, st.chains[c].round)))
    ensures st' == WriteStep(mid, c, first) && Cycled(st, st', c)
  {
    var k := st.chains[c];
    SameSound(st, mid, c, k.round);
    st' := WriteBrings(mid, c, k, first);
    CycledIs(st, mid, st', c, k);
  }

  lemma {:induction false} CycleState(st: State, c: Node, first: Snap) returns (mid: State, st': State)
    requires Inv(st) && CanCycle(st, c, first)
    ensures mid == Exec(Exec(st, ReadNumber(c)), ReadWorks(c))
    ensures st' == Exec(mid, WriteWorks(c, first)) && Cycled(st, st', c)
  {
    mid := ReadBrings(st, c);
    st' := WriteAfterRead(st, mid, c, first);
  }

  lemma {:induction false} SameSound(st: State, st': State, c: Node, r: nat)
    requires st'.all == st.all && Sound(st, c, r)
    ensures Sound(st', c, r)
  {
  }

  lemma {:induction false} CycleCounts(es: seq<Event>, c: Node, first: Snap)
    requires CanCycle(Run(es), c, first)
    ensures Cycled(Run(es), Run(es + Cycle(c, first)), c)
  {
    RunKeeps(es);
    RunOn(es, ReadNumber(c), ReadWorks(c), WriteWorks(c, first));
    var mid, st' := CycleState(Run(es), c, first);
  }

  lemma {:induction false} WriteBrings(st: State, c: Node, k: Chain, first: Snap) returns (st': State)
    requires Inv(st) && c in st.chains && Sound(st, c, k.round)
    requires st.chains[c] == Loaded(k, InRound(st.all, c, k.round))
    requires var newly := Fresh(k, k.round, InRound(st.all, c, k.round)); newly != {} ==> first in newly
    ensures st' == WriteStep(st, c, first) && st'.all == st.all
    ensures st'.chains == st.chains[c := Chain(k.cache, k.round, Hashes(InRound(st.all, c, k.round)),
                                               if k.round < k.cache then k.round + 1 else k.round, Idle)]
  {
    var now, snaps := st.chains[c], InRound(st.all, c, k.round);
    var newly := Fresh(now, now.round, snaps);
    assert newly == Fresh(k, k.round, snaps);
    SoundIsCreditable(st, c, k, k.round);
    st' := WriteStep(st, c, first);
    WriteIs(st, c, now, first, newly);
    TalliedFrame(Moved(st, c, k.round, snaps), c, newly, first);
  }

  // ----- catching up

  /** Of the rounds from `r` on all are sound, and those that are closed are not empty. */
  ghost predicate Ahead(st: State, c: Node, r: nat)
    requires c in st.chains
  {
    && (forall q: nat | q >= r :: Sound(st, c, q))
    && (forall q: nat | r <= q < st.chains[c].cache :: Nonempty(st, c, q))
  }

  lemma {:induction false} AtTheHead(st: State, c: Node)
    requires Inv(st) && c in st.chains && st.chains[c].round == st.chains[c].cache
    requires !Nonempty(st, c, st.chains[c].cache) ||
             (st.chains[c].off == st.chains[c].cache &&
              Hashes(InRound(st.all, c, st.chains[c].cache)) <= st.chains[c].counted)
    ensures AllCounted(st, c)
  {
    var k := st.chains[c];
    assert ChainInv(st.all, st.kept, c, k);
    forall s <- st.all | s.chain == c
      ensures IsCounted(st, s)
    {
      assert s in InRound(st.all, c, s.round) && s.hash in Hashes(InRound(st.all, c, s.round));
    }
  }

  lemma {:induction false} SomeFirst(newly: set<Snap>) returns (first: Snap)
    ensures newly != {} ==> first in newly
  {
    if newly == {} {
      first := Snap(0, 0, 0, 0, {});
    } else {
      first :| first in newly;
    }
  }

  lemma {:induction false} NextOrDone(st: State, st': State, c: Node)
    requires Inv(st) && Inv(st') && c in st.chains && Cycled(st, st', c) && Ahead(st, c, st.chains[c].round)
    ensures var k, k' := st.chains[c], st'.chains[c];
            && c in st'.chains && k'.pc.Idle? && k'.cache == k.cache
            && if k.round < k.cache then k'.round == k.round + 1 && Ahead(st', c, k'.round)
               else CaughtUp(st', c, k.cache)
  {
    var k := st.chains[c];
    assert ChainInv(st.all, st.kept, c, k);
    if k.round < k.cache {
      StillAhead(st, st', c, k.round);
    } else {
      AtTheHead(st', c);
    }
  }

  /** The chain is idle at round `r`, with all before it. */
  ghost predicate At(st: State, c: Node, r: nat, cache: nat) {
    c in st.chains && st.chains[c].pc.Idle? && st.chains[c].round == r && st.chains[c].cache == cache && Ahead(st, c, r)
  }

  lemma {:induction false} OneCycle(es: seq<Event>, c: Node, r: nat, cache: nat) returns (step: seq<Event>)
    requires At(Run(es), c, r, cache) && Nonempty(Run(es), c, r)
    ensures Run(es + step).all == Run(es).all
    ensures if r < cache then At(Run(es + step), c, r + 1, cache) else CaughtUp(Run(es + step), c, cache)
  {
    var st := Run(es);
    var k := st.chains[c];
    var first := SomeFirst(Fresh(k, r, InRound(st.all, c, r)));
    assert Sound(st, c, r);
    step := Cycle(c, first);
    CycleCounts(es, c, first);
    RunKeeps(es);
    RunKeeps(es + step);
    NextOrDone(st, Run(es + step), c);
  }

  lemma {:induction false} EmptyIsHead(es: seq<Event>, c: Node, r: nat, cache: nat)
    requires At(Run(es), c, r, cache) && !Nonempty(Run(es), c, r)
    ensures CaughtUp(Run(es), c, cache)
  {
    RunKeeps(es);
    assert ChainInv(Run(es).all, Run(es).kept, c, Run(es).chains[c]);
    AtTheHead(Run(es), c);
  }

  lemma {:induction false} CatchUp(es: seq<Event>, c: Node, r: nat, cache: nat) returns (more: seq<Event>)
    requires At(Run(es), c, r, cache)
    ensures Run(es + more).all == Run(es).all && CaughtUp(Run(es + more), c, cache)
    decreases cache - r
  {
    if !Nonempty(Run(es), c, r) {
      more := [];
      assert es + more == es;
      EmptyIsHead(es, c, r, cache);
    } else {
      var step := OneCycle(es, c, r, cache);
      if r < cache {
        var rest := CatchUp(es + step, c, r + 1, cache);
        assert es + step + rest == es + (step + rest);
        more := step + rest;
      } else {
        more := step;
      }
    }
  }

  lemma {:induction false} StillAhead(st: State, st': State, c: Node, r: nat)
    requires c in st.chains && c in st'.chains && st'.all == st.all && st'.chains[c].cache == st.chains[c].cache
    requires Ahead(st, c, r)
    ensures Ahead(st', c, r + 1)
  {
    forall q: nat | q >= r + 1
      ensures Sound(st', c, q)
    {
      assert Sound(st, c, q);
    }
    forall q: nat | r + 1 <= q < st'.chains[c].cache
      ensures Nonempty(st', c, q)
    {
      assert Nonempty(st, c, q);
    }
  }

  /** After every run, whatever the aggregator is at: if from its offset on every round is sound and
      every closed one not empty, a restart and some cycles count all snapshots of the chain. */
  lemma {:induction false} AllCanBeCounted(es: seq<Event>, c: Node) returns (more: seq<Event>)
    requires c in Run(es).chains && Ahead(Run(es), c, Run(es).chains[c].off)
    ensures Run(es + more).all == Run(es).all && CaughtUp(Run(es + more), c, Run(es).chains[c].cache)
  {
    var es' := es + [Restart(c)];
    assert es'[..|es|] == es;
    var st, st' := Run(es), Run(es');
    assert st'.all == st.all && st'.chains[c].cache == st.chains[c].cache && st'.chains[c].round == st.chains[c].off;
    SameAhead(st, st', c, st.chains[c].off);
    more := CatchUp(es', c, st.chains[c].off, st.chains[c].cache);
    assert es' + more == es + ([Restart(c)] + more);
    more := [Restart(c)] + more;
  }

  /** A round that is closed is left behind: the aggregator gets to the round after it. */
  lemma {:induction false} ClosedIsPassed(es: seq<Event>, c: Node) returns (more: seq<Event>)
    requires c in Run(es).chains && Ahead(Run(es), c, Run(es).chains[c].off)
    requires Nonempty(Run(es), c, Run(es).chains[c].cache)
    ensures Run(es + more).all == Run(es).all && CaughtUp(Run(es + more), c, Run(es).chains[c].cache + 1)
  {
    var es' := es + [Close(c)];
    assert es'[..|es|] == es;
    var st, st' := Run(es), Run(es');
    assert st'.all == st.all && st'.chains[c].off == st.chains[c].off;
    ClosedAhead(st, st', c, st.chains[c].off);
    more := AllCanBeCounted(es', c);
    assert es' + more == es + ([Close(c)] + more);
    more := [Close(c)] + more;
  }

  lemma {:induction false} ClosedAhead(st: State, st': State, c: Node, r: nat)
    requires c in st.chains && c in st'.chains && st'.all == st.all && st'.chains[c].cache == st.chains[c].cache + 1
    requires Ahead(st, c, r) && Nonempty(st, c, st.chains[c].cache)
    ensures Ahead(st', c, r)
  {
    forall q: nat | q >= r
      ensures Sound(st', c, q)
    {
      assert Sound(st, c, q);
    }
    forall q: nat | r <= q < st'.chains[c].cache
      ensures Nonempty(st', c, q)
    {
      assert q < st.chains[c].cache ==> Nonempty(st, c, q);
    }
  }

  lemma {:induction false} SameAhead(st: State, st': State, c: Node, r: nat)
    requires c in st.chains && c in st'.chains && st'.all == st.all && st'.chains[c].cache == st.chains[c].cache
    requires Ahead(st, c, r)
    ensures Ahead(st', c, r)
  {
    forall q: nat | q >= r
      ensures Sound(st', c, q)
    {
      assert Sound(st, c, q);
    }
    forall q: nat | r <= q < st'.chains[c].cache
      ensures Nonempty(st', c, q)
    {
      assert Nonempty(st, c, q);
    }
  }
}
