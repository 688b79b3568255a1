/** The aggregation of work: each chain's aggregator reads the snapshots of a round that may
    still be growing, again and again, and adds what is new to the counters of its day. */
module RoundWork {
  import opened Quorum

  type Node = nat
  type Hash = nat

  const DAY := 86400000000000  // nanoseconds

  datatype Snap = Snap(chain: Node, round: nat, ts: nat, hash: Hash, signers: set<Node>)

  function DayOf(s: Snap): nat { s.ts / DAY }

  /** What the aggregator of a chain knows: the head's number it read and the snapshots it read
      after that. */
  datatype Pc = Idle | HasNumber(crn: nat) | HasWorks(crn: nat, snaps: set<Snap>)

  /** A chain: its head's number, the stored offset with the hashes counted in that round, and
      the aggregator's round and progress. */
  datatype Chain = Chain(cache: nat, off: nat, counted: set<Hash>, round: nat, pc: Pc)

  type Counters = map<(Node, nat), nat>

  /** `all` is every snapshot ever written, `kept` those the store still lists for aggregation. */
  datatype State = State(all: set<Snap>, kept: set<Snap>, chains: map<Node, Chain>, lead: Counters, sign: Counters)

  function Get(m: Counters, n: Node, d: nat): nat {
    if (n, d) in m then m[(n, d)] else 0
  }

  function InRound(ss: set<Snap>, c: Node, r: nat): set<Snap> {
    set s <- ss | s.chain == c && s.round == r
  }

  function SignedBy(ss: set<Snap>, n: Node): set<Snap> {
    set s <- ss | n in s.signers
  }

  function Hashes(ss: set<Snap>): set<Hash> {
    set s <- ss :: s.hash
  }

  // ----- the store transaction that writes a round's work

  function Fresh(k: Chain, round: nat, snaps: set<Snap>): set<Snap> {
    if round == k.off then set s <- snaps | s.hash !in k.counted else snaps
  }

  /** Neither the offset nor the counted snapshots may be missed. */
  predicate InSequence(k: Chain, round: nat, snaps: set<Snap>) {
    round <= k.off + 1 && (round == k.off ==> k.counted <= Hashes(snaps))
  }

  /** New snapshots carry the leader's signature and fall on one day. */
  predicate Regular(c: Node, newly: set<Snap>, first: Snap) {
    forall s <- newly :: s.ts > 0 && DayOf(s) == DayOf(first) && c in s.signers
  }

  function AddSigns(sign: Counters, c: Node, newly: set<Snap>, day: nat): Counters {
    var nodes := set s <- newly, n <- s.signers | n != c :: n;
    sign + map k <- (set n <- nodes :: (n, day)) :: Get(sign, k.0, day) + |SignedBy(newly, k.0)|
  }

  datatype Result = Panic | Ok(state: State)

  /** `first` is the first new snapshot in the order of the store; a genesis snapshot has no
      signers and is not counted. */
  function WriteRoundWork(st: State, c: Node, round: nat, snaps: set<Snap>, first: Snap): Result
    requires c in st.chains && (Fresh(st.chains[c], round, snaps) != {} ==> first in Fresh(st.chains[c], round, snaps))
  {
    var k := st.chains[c];
    var newly := Fresh(k, round, snaps);
    if k.off > round then Ok(st)
    else if !InSequence(k, round, snaps) || !Acceptable(c, newly, first) then Panic
    else Ok(Tallied(Moved(st, c, round, snaps), c, newly, first))
  }

  predicate Acceptable(c: Node, newly: set<Snap>, first: Snap) {
    newly == {} || first.signers == {} || Regular(c, newly, first)
  }

  function Tallied(st: State, c: Node, newly: set<Snap>, first: Snap): State {
    if newly == {} || first.signers == {} then st
    else
      var day := DayOf(first);
      State(st.all, st.kept, st.chains, st.lead[(c, day) := Get(st.lead, c, day) + |newly|],
            AddSigns(st.sign, c, newly, day))
  }

  /** The offset moves and the works of the round left behind are dropped. */
  function Moved(st: State, c: Node, round: nat, snaps: set<Snap>): State
    requires c in st.chains
  {
    var k := st.chains[c];
    State(st.all, if round == k.off then st.kept else st.kept - InRound(st.kept, c, k.off),
          st.chains[c := Chain(k.cache, round, Hashes(snaps), k.round, k.pc)], st.lead, st.sign)
  }

  // ----- the chain and its aggregator

  datatype Event =
    | Join(c: Node)
    | Add(s: Snap)
    | Close(c: Node)
    | ReadNumber(c: Node)
    | ReadWorks(c: Node)
    | WriteWorks(c: Node, first: Snap)
    | Restart(c: Node)

  /** A snapshot goes to the head round.  Either all snapshots of a round are signed or none is,
      which are those of genesis.  Whoever signed is not looked at. */
  predicate Admits(st: State, s: Snap) {
    && s.chain in st.chains && s.round == st.chains[s.chain].cache
    && (forall t <- st.all :: t.hash != s.hash)
    && (forall t <- InRound(st.all, s.chain, s.round) :: t.signers == {} <==> s.signers == {})
  }

  function SetChain(st: State, c: Node, k: Chain): State {
    State(st.all, st.kept, st.chains[c := k], st.lead, st.sign)
  }

  /** The work is written and the aggregator goes on if the round was closed when it read the
      head's number. */
  function WriteStep(st: State, c: Node, first: Snap): State {
    if c !in st.chains || !st.chains[c].pc.HasWorks? then st
    else
      var k := st.chains[c];
      if Fresh(k, k.round, k.pc.snaps) != {} && first !in Fresh(k, k.round, k.pc.snaps) then st
      else
        var r := WriteRoundWork(st, c, k.round, k.pc.snaps, first);
        if r.Panic? then st
        else
          var k' := r.state.chains[c];
          SetChain(r.state, c,
                   Chain(k'.cache, k'.off, k'.counted, if k.round < k.pc.crn then k.round + 1 else k.round, Idle))
  }

  function Exec(st: State, e: Event): State {
    match e
    case Join(c) => if c in st.chains then st else SetChain(st, c, Chain(0, 0, {}, 0, Idle))
    case Add(s) => if Admits(st, s) then State(st.all + {s}, st.kept + {s}, st.chains, st.lead, st.sign) else st
    case Close(c) =>
      if c !in st.chains then st
      else var k := st.chains[c]; SetChain(st, c, Chain(k.cache + 1, k.off, k.counted, k.round, k.pc))
    case ReadNumber(c) =>
      if c !in st.chains || !st.chains[c].pc.Idle? then st
      else var k := st.chains[c]; SetChain(st, c, Chain(k.cache, k.off, k.counted, k.round, HasNumber(k.cache)))
    case ReadWorks(c) =>
      if c !in st.chains || !st.chains[c].pc.HasNumber? then st
      else
        var k := st.chains[c];
        var snaps := InRound(st.kept, c, k.round);
        SetChain(st, c, Chain(k.cache, k.off, k.counted, k.round,
                              if snaps == {} then Idle else HasWorks(k.pc.crn, snaps)))
    case WriteWorks(c, first) => WriteStep(st, c, first)
    case Restart(c) =>
      if c !in st.chains then st
      else var k := st.chains[c]; SetChain(st, c, Chain(k.cache, k.off, k.counted, k.off, Idle))
  }

  // ----- the recount

  /** Snapshots of rounds before the offset, and those counted in the round at the offset. */
  predicate IsCounted(st: State, s: Snap) {
    s.chain in st.chains &&
    (s.round < st.chains[s.chain].off || (s.round == st.chains[s.chain].off && s.hash in st.chains[s.chain].counted))
  }

  function Counted(st: State): set<Snap> {
    set s <- st.all | IsCounted(st, s)
  }

  /** Led by `n` on day `d`. */
  function Leads(ss: set<Snap>, n: Node, d: nat): set<Snap> {
    set s <- ss | s.chain == n && s.signers != {} && DayOf(s) == d
  }

  /** Signed by `n`, for another leader, on day `d`. */
  function Signs(ss: set<Snap>, n: Node, d: nat): set<Snap> {
    set s <- ss | s.chain != n && n in s.signers && DayOf(s) == d
  }

  ghost predicate CountersMatch(counted: set<Snap>, lead: Counters, sign: Counters) {
    && (forall n: Node, d: nat :: Get(lead, n, d) == |Leads(counted, n, d)|)
    && (forall n: Node, d: nat :: Get(sign, n, d) == |Signs(counted, n, d)|)
  }

  // ----- the invariant

  ghost predicate SnapsInv(all: set<Snap>) {
    && (forall s <- all, t <- all :: s.hash == t.hash ==> s == t)
    && (forall s <- all, t <- all ::
          s.chain == t.chain && s.round == t.round ==> (s.signers == {} <==> t.signers == {}))
  }

  /** The works the aggregator holds: everything of the round if it was closed, and all that was
      counted before. */
  ghost predicate HeldInv(all: set<Snap>, c: Node, k: Chain) {
    match k.pc
    case Idle => true
    case HasNumber(crn) => k.round <= crn <= k.cache
    case HasWorks(crn, snaps) =>
      && k.round <= crn <= k.cache && snaps <= InRound(all, c, k.round)
      && (k.round < crn ==> snaps == InRound(all, c, k.round))
      && (k.round == k.off ==> k.counted <= Hashes(snaps))
  }

  ghost predicate ChainInv(all: set<Snap>, kept: set<Snap>, c: Node, k: Chain) {
    && (forall s <- all | s.chain == c :: s.round <= k.cache)
    && (forall s <- all | s.chain == c && s.round >= k.off :: s in kept)
    && k.off <= k.round <= k.off + 1 && k.round <= k.cache
    && k.counted <= Hashes(InRound(all, c, k.off))
    && (k.round == k.off + 1 ==> Hashes(InRound(all, c, k.off)) <= k.counted)
    && HeldInv(all, c, k)
  }

  ghost predicate Inv(st: State) {
    && SnapsInv(st.all) && st.kept <= st.all
    && (forall s <- st.all :: s.chain in st.chains)
    && (forall c <- st.chains :: ChainInv(st.all, st.kept, c, st.chains[c]))
    && CountersMatch(Counted(st), st.lead, st.sign)
  }

  // ----- counting

  lemma {:induction false} DisjointSize<T>(a: set<T>, b: set<T>)
    requires a !! b
    ensures |a + b| == |a| + |b|
  {
    UnionBound(a, b);
  }

  lemma {:induction false} LeadsGrow(counted: set<Snap>, newly: set<Snap>, c: Node, day: nat, n: Node, d: nat)
    requires counted !! newly && forall s <- newly :: s.chain == c && s.signers != {} && DayOf(s) == day
    ensures |Leads(counted + newly, n, d)| == |Leads(counted, n, d)| + (if n == c && d == day then |newly| else 0)
  {
    assert Leads(counted + newly, n, d) == Leads(counted, n, d) + Leads(newly, n, d);
    DisjointSize(Leads(counted, n, d), Leads(newly, n, d));
    assert Leads(newly, n, d) == if n == c && d == day then newly else {};
  }

  lemma {:induction false} SignsGrow(counted: set<Snap>, newly: set<Snap>, c: Node, day: nat, n: Node, d: nat)
    requires counted !! newly && forall s <- newly :: s.chain == c && DayOf(s) == day
    ensures |Signs(counted + newly, n, d)| ==
            |Signs(counted, n, d)| + (if n != c && d == day then |SignedBy(newly, n)| else 0)
  {
    assert Signs(counted + newly, n, d) == Signs(counted, n, d) + Signs(newly, n, d);
    DisjointSize(Signs(counted, n, d), Signs(newly, n, d));
    assert Signs(newly, n, d) == if n != c && d == day then SignedBy(newly, n) else {};
  }

  lemma {:induction false} AddSignsGet(sign: Counters, c: Node, newly: set<Snap>, day: nat, n: Node, d: nat)
    ensures Get(AddSigns(sign, c, newly, day), n, d) ==
            Get(sign, n, d) + (if n != c && d == day then |SignedBy(newly, n)| else 0)
  {
    if n != c && d == day && SignedBy(newly, n) != {} {
      var s :| s in SignedBy(newly, n);
      assert s in newly && n in s.signers;
    }
  }

  /** Counting the new snapshots of one day and one leader keeps the counters a recount. */
  lemma {:induction false} CountersGrow(counted: set<Snap>, newly: set<Snap>, lead: Counters, sign: Counters, c: Node,
                                        day: nat)
    requires CountersMatch(counted, lead, sign) && counted !! newly
    requires forall s <- newly :: s.chain == c && s.signers != {} && DayOf(s) == day
    ensures CountersMatch(counted + newly, lead[(c, day) := Get(lead, c, day) + |newly|], AddSigns(sign, c, newly, day))
  {
    var lead' := lead[(c, day) := Get(lead, c, day) + |newly|];
    forall n: Node, d: nat
      ensures Get(lead', n, d) == |Leads(counted + newly, n, d)|
      ensures Get(AddSigns(sign, c, newly, day), n, d) == |Signs(counted + newly, n, d)|
    {
      LeadsGrow(counted, newly, c, day, n, d);
      SignsGrow(counted, newly, c, day, n, d);
      AddSignsGet(sign, c, newly, day, n, d);
    }
  }

  lemma {:induction false} UnsignedCount(counted: set<Snap>, newly: set<Snap>, lead: Counters, sign: Counters)
    requires CountersMatch(counted, lead, sign) && forall s <- newly :: s.signers == {}
    ensures CountersMatch(counted + newly, lead, sign)
  {
    forall n: Node, d: nat
      ensures Leads(counted + newly, n, d) == Leads(counted, n, d) &&
              Signs(counted + newly, n, d) == Signs(counted, n, d)
    {
    }
  }

  // ----- one write

  /** What a write counts is what it has not counted before, and only that. */
  lemma {:induction false} CountedGrows(st: State, c: Node, k: Chain)
    requires Inv(st) && c in st.chains && k == st.chains[c] && k.pc.HasWorks?
    ensures InSequence(k, k.round, k.pc.snaps) && k.off <= k.round
    ensures var newly := Fresh(k, k.round, k.pc.snaps);
            Counted(Moved(st, c, k.round, k.pc.snaps)) == Counted(st) + newly && Counted(st) !! newly
  {
    assert ChainInv(st.all, st.kept, c, k);
    var newly, st' := Fresh(k, k.round, k.pc.snaps), Moved(st, c, k.round, k.pc.snaps);
    forall s <- st.all
      ensures IsCounted(st', s) <==> IsCounted(st, s) || s in newly
      ensures !(IsCounted(st, s) && s in newly)
    {
      if s.chain == c {
        assert s.round == k.round ==> s in InRound(st.all, c, k.round);
        assert s.hash in Hashes(k.pc.snaps) && s.round == k.round <==> s in k.pc.snaps by {
          HashMember(st.all, k.pc.snaps, s);
        }
        assert s.round == k.off ==> s in InRound(st.all, c, k.off) && s.hash in Hashes(InRound(st.all, c, k.off));
      }
    }
    assert newly <= st.all;
  }

  lemma {:induction false} HashMember(all: set<Snap>, ss: set<Snap>, s: Snap)
    requires SnapsInv(all) && ss <= all && s in all
    ensures s.hash in Hashes(ss) <==> s in ss
  {
  }

  lemma {:induction false} NewlyAlike(st: State, c: Node, k: Chain, first: Snap)
    requires Inv(st) && c in st.chains && k == st.chains[c] && k.pc.HasWorks?
    requires first in Fresh(k, k.round, k.pc.snaps)
    ensures forall s <- Fresh(k, k.round, k.pc.snaps) :: s.chain == c && (s.signers == {} <==> first.signers == {})
  {
    assert ChainInv(st.all, st.kept, c, k);
  }

  /** Signed snapshots can be credited if the leader is among the signers of each and all lie on
      one day. */
  predicate Creditable(c: Node, newly: set<Snap>) {
    forall s <- newly | s.signers != {} :: c in s.signers && s.ts > 0 && forall t <- newly :: DayOf(t) == DayOf(s)
  }

  lemma {:induction false} CreditableIff(st: State, c: Node, k: Chain, first: Snap, newly: set<Snap>)
    requires Inv(st) && c in st.chains && k == st.chains[c] && k.pc.HasWorks? && newly == Fresh(k, k.round, k.pc.snaps)
    requires newly != {} ==> first in newly
    ensures Acceptable(c, newly, first) <==> Creditable(c, newly)
  {
    if newly != {} {
      NewlyAlike(st, c, k, first);
      if Creditable(c, newly) && first.signers != {} {
        assert forall t <- newly :: DayOf(t) == DayOf(first);
      }
    }
  }

  /** The aggregator never misses a round or a snapshot, so the store panics exactly on new
      snapshots that cannot be credited. */
  lemma {:induction false} WriteSucceedsIff(st: State, c: Node, k: Chain, first: Snap, newly: set<Snap>)
    requires Inv(st) && c in st.chains && k == st.chains[c] && k.pc.HasWorks? && newly == Fresh(k, k.round, k.pc.snaps)
    requires newly != {} ==> first in newly
    ensures WriteRoundWork(st, c, k.round, k.pc.snaps, first) ==
            if Creditable(c, newly) then Ok(Tallied(Moved(st, c, k.round, k.pc.snaps), c, newly, first)) else Panic
  {
    CountedGrows(st, c, k);
    CreditableIff(st, c, k, first, newly);
  }

  lemma {:induction false} TallyMatches(st: State, counted: set<Snap>, c: Node, newly: set<Snap>, first: Snap)
    requires CountersMatch(counted, st.lead, st.sign) && counted !! newly
    requires newly != {} ==> first in newly
    requires forall s <- newly :: s.chain == c && (s.signers == {} <==> first.signers == {})
    requires forall s <- newly | first.signers != {} :: DayOf(s) == DayOf(first)
    ensures CountersMatch(counted + newly, Tallied(st, c, newly, first).lead, Tallied(st, c, newly, first).sign)
  {
    if newly == {} {
      assert counted + newly == counted;
    } else if first.signers == {} {
      UnsignedCount(counted, newly, st.lead, st.sign);
    } else {
      CountersGrow(counted, newly, st.lead, st.sign, c, DayOf(first));
    }
  }

  /** The counters stay a recount. */
  lemma {:induction false} WriteCounts(st: State, c: Node, k: Chain, first: Snap, newly: set<Snap>, moved: State)
    requires Inv(st) && c in st.chains && k == st.chains[c] && k.pc.HasWorks? && newly == Fresh(k, k.round, k.pc.snaps)
    requires (newly != {} ==> first in newly) && Creditable(c, newly)
    requires moved == Moved(st, c, k.round, k.pc.snaps)
    ensures CountersMatch(Counted(moved), Tallied(moved, c, newly, first).lead, Tallied(moved, c, newly, first).sign)
  {
    CountedGrows(st, c, k);
    CreditableIff(st, c, k, first, newly);
    if newly != {} {
      NewlyAlike(st, c, k, first);
    }
    TallyMatches(moved, Counted(st), c, newly, first);
  }

  // ----- every event keeps the invariant

  /** A chain's step that changes neither snapshots nor what is counted. */
  lemma {:induction false} ChainStep(st: State, c: Node, k: Chain)
    requires Inv(st) && ChainInv(st.all, st.kept, c, k)
    requires if c in st.chains then k.off == st.chains[c].off && k.counted == st.chains[c].counted
             else k.off == 0 && k.counted == {}
    ensures Inv(SetChain(st, c, k))
  {
    var st' := SetChain(st, c, k);
    forall s <- st.all
      ensures IsCounted(st', s) <==> IsCounted(st, s)
    {
    }
    assert Counted(st') == Counted(st);
  }

  lemma {:induction false} AddKeeps(st: State, s: Snap)
    requires Inv(st) && Admits(st, s)
    ensures Inv(Exec(st, Add(s)))
  {
    var st' := Exec(st, Add(s));
    AddSnaps(st, s);
    forall c <- st'.chains
      ensures ChainInv(st'.all, st'.kept, c, st'.chains[c])
    {
      AddChain(st, s, c);
    }
    AddCounted(st, s);
  }

  lemma {:induction false} AddCounted(st: State, s: Snap)
    requires Inv(st) && Admits(st, s)
    ensures Counted(Exec(st, Add(s))) == Counted(st)
  {
    var k := st.chains[s.chain];
    assert ChainInv(st.all, st.kept, s.chain, k);
    assert s.hash !in Hashes(InRound(st.all, s.chain, k.off));
  }

  lemma {:induction false} AddSnaps(st: State, s: Snap)
    requires Inv(st) && Admits(st, s)
    ensures SnapsInv(st.all + {s})
  {
    forall t <- st.all | t.chain == s.chain && t.round == s.round
      ensures t.signers == {} <==> s.signers == {}
    {
      assert t in InRound(st.all, s.chain, s.round);
    }
  }

  lemma {:induction false} AddChain(st: State, s: Snap, c: Node)
    requires Inv(st) && Admits(st, s) && c in st.chains
    ensures ChainInv(st.all + {s}, st.kept + {s}, c, st.chains[c])
  {
    var k, all' := st.chains[c], st.all + {s};
    assert ChainInv(st.all, st.kept, c, k);
    assert forall r: nat | s.chain != c || r < k.cache :: InRound(all', c, r) == InRound(st.all, c, r);
    assert forall r: nat :: InRound(st.all, c, r) <= InRound(all', c, r);
  }

  lemma {:induction false} ReadWorksKeeps(st: State, c: Node)
    requires Inv(st) && c in st.chains && st.chains[c].pc.HasNumber?
    ensures Inv(Exec(st, ReadWorks(c)))
  {
    var k := st.chains[c];
    assert ChainInv(st.all, st.kept, c, k);
    assert InRound(st.kept, c, k.round) == InRound(st.all, c, k.round);
    ChainStep(st, c, Exec(st, ReadWorks(c)).chains[c]);
  }

  lemma {:induction false} MovedChains(st: State, c: Node, k: Chain, k': Chain)
    requires Inv(st) && c in st.chains && k == st.chains[c] && k.pc.HasWorks?
    requires k' == Chain(k.cache, k.round, Hashes(k.pc.snaps),
                         if k.round < k.pc.crn then k.round + 1 else k.round, Idle)
    ensures var st' := Moved(st, c, k.round, k.pc.snaps);
            && ChainInv(st'.all, st'.kept, c, k')
            && (forall b <- st.chains | b != c :: ChainInv(st'.all, st'.kept, b, st.chains[b]))
  {
    assert ChainInv(st.all, st.kept, c, k);
    forall b <- st.chains | b != c
      ensures ChainInv(st.all, Moved(st, c, k.round, k.pc.snaps).kept, b, st.chains[b])
    {
      assert ChainInv(st.all, st.kept, b, st.chains[b]);
    }
  }

  function AfterWrite(k: Chain): Chain
    requires k.pc.HasWorks?
  {
    Chain(k.cache, k.round, Hashes(k.pc.snaps), if k.round < k.pc.crn then k.round + 1 else k.round, Idle)
  }

  lemma {:induction false} WriteIs(st: State, c: Node, k: Chain, first: Snap, newly: set<Snap>)
    requires Inv(st) && c in st.chains && k == st.chains[c] && k.pc.HasWorks? && newly == Fresh(k, k.round, k.pc.snaps)
    requires newly != {} ==> first in newly
    ensures WriteStep(st, c, first) ==
            if Creditable(c, newly)
            then SetChain(Tallied(Moved(st, c, k.round, k.pc.snaps), c, newly, first), c, AfterWrite(k)) else st
  {
    WriteSucceedsIff(st, c, k, first, newly);
  }

  /** The aggregator going on changes nothing that is counted. */
  lemma {:induction false} SameCounted(st: State, st': State, c: Node)
    requires st'.all == st.all && c in st.chains && c in st'.chains && st'.chains == st.chains[c := st'.chains[c]]
    requires st'.chains[c].off == st.chains[c].off && st'.chains[c].counted == st.chains[c].counted
    ensures Counted(st') == Counted(st)
  {
    assert forall s <- st.all :: IsCounted(st', s) <==> IsCounted(st, s);
  }

  lemma {:induction false} WriteKeeps(st: State, c: Node, first: Snap)
    requires Inv(st)
    ensures Inv(WriteStep(st, c, first))
  {
    if c in st.chains && st.chains[c].pc.HasWorks? {
      var k := st.chains[c];
      var newly := Fresh(k, k.round, k.pc.snaps);
      if newly == {} || first in newly {
        WriteIs(st, c, k, first, newly);
        if Creditable(c, newly) {
          WrittenKeeps(st, c, k, first, newly, Moved(st, c, k.round, k.pc.snaps));
        }
      }
    }
  }

  lemma {:induction false} WrittenKeeps(st: State, c: Node, k: Chain, first: Snap, newly: set<Snap>, moved: State)
    requires Inv(st) && c in st.chains && k == st.chains[c] && k.pc.HasWorks? && newly == Fresh(k, k.round, k.pc.snaps)
    requires (newly != {} ==> first in newly) && Creditable(c, newly)
    requires moved == Moved(st, c, k.round, k.pc.snaps)
    ensures Inv(SetChain(Tallied(moved, c, newly, first), c, AfterWrite(k)))
  {
    var st' := SetChain(Tallied(moved, c, newly, first), c, AfterWrite(k));
    WriteCounts(st, c, k, first, newly, moved);
    MovedChains(st, c, k, AfterWrite(k));
    SameCounted(moved, st', c);
  }

  lemma {:induction false} ExecKeeps(st: State, e: Event)
    requires Inv(st)
    ensures Inv(Exec(st, e))
  {
    match e
    case Join(c) =>
      if c !in st.chains { ChainStep(st, c, Chain(0, 0, {}, 0, Idle)); }
    case Add(s) => if Admits(st, s) { AddKeeps(st, s); }
    case Close(c) =>
      if c in st.chains {
        assert ChainInv(st.all, st.kept, c, st.chains[c]);
        ChainStep(st, c, Exec(st, e).chains[c]);
      }
    case ReadNumber(c) =>
      if c in st.chains && st.chains[c].pc.Idle? {
        assert ChainInv(st.all, st.kept, c, st.chains[c]);
        ChainStep(st, c, Exec(st, e).chains[c]);
      }
    case ReadWorks(c) => if c in st.chains && st.chains[c].pc.HasNumber? { ReadWorksKeeps(st, c); }
    case WriteWorks(c, first) => WriteKeeps(st, c, first);
    case Restart(c) =>
      if c in st.chains {
        assert ChainInv(st.all, st.kept, c, st.chains[c]);
        ChainStep(st, c, Exec(st, e).chains[c]);
      }
  }

  // ----- runs

  function Run(es: seq<Event>): State
    decreases |es|
  {
    if es == [] then State({}, {}, map[], map[], map[]) else Exec(Run(es[..|es| - 1]), es[|es| - 1])
  }

  lemma {:induction false} RunKeeps(es: seq<Event>)
    ensures Inv(Run(es))
    decreases |es|
  {
    if es != [] {
      RunKeeps(es[..|es| - 1]);
      ExecKeeps(Run(es[..|es| - 1]), es[|es| - 1]);
    }
  }

  /** In every run, however often rounds are read while they grow and aggregators restart: the
      counters are a recount of the snapshots counted so far, each once. */
  lemma {:induction false} ExactlyOnce(es: seq<Event>, n: Node, d: nat)
    ensures var st := Run(es);
            && Get(st.lead, n, d) == |Leads(Counted(st), n, d)|
            && Get(st.sign, n, d) == |Signs(Counted(st), n, d)|
  {
    RunKeeps(es);
  }

  /** In every run the aggregator is never ahead of the head, and a write panics exactly if a new
      snapshot cannot be credited. */
  lemma {:induction false} NoPanicIff(es: seq<Event>, c: Node, first: Snap)
    requires c in Run(es).chains
    ensures var k := Run(es).chains[c];
            && k.round <= k.cache
            && (k.pc.HasWorks? && (Fresh(k, k.round, k.pc.snaps) != {} ==> first in Fresh(k, k.round, k.pc.snaps)) ==>
                  (WriteRoundWork(Run(es), c, k.round, k.pc.snaps, first).Ok? <==>
                   Creditable(c, Fresh(k, k.round, k.pc.snaps))))
  {
    RunKeeps(es);
    var k := Run(es).chains[c];
    assert ChainInv(Run(es).all, Run(es).kept, c, k);
    if k.pc.HasWorks? && (Fresh(k, k.round, k.pc.snaps) != {} ==> first in Fresh(k, k.round, k.pc.snaps)) {
      WriteSucceedsIff(Run(es), c, k, first, Fresh(k, k.round, k.pc.snaps));
    }
  }

  /** Where the round lies on one day, what decides is that the leader signed. */
  lemma {:induction false} LeaderDecides(es: seq<Event>, c: Node, first: Snap, newly: set<Snap>)
    requires c in Run(es).chains && Run(es).chains[c].pc.HasWorks?
    requires var k := Run(es).chains[c]; newly == Fresh(k, k.round, k.pc.snaps) && (newly != {} ==> first in newly)
    requires forall s <- newly :: s.ts > 0 && DayOf(s) == DayOf(first)
    ensures var k := Run(es).chains[c];
            WriteRoundWork(Run(es), c, k.round, k.pc.snaps, first).Ok? <==>
            forall s <- newly :: s.signers == {} || c in s.signers
  {
    NoPanicIff(es, c, first);
  }

  // ----- a snapshot its leader did not sign

  predicate Unled(s: Snap) {
    s.signers != {} && s.chain !in s.signers
  }

  lemma {:induction false} NeverCredited(st: State, c: Node, k: Chain, s: Snap)
    requires Inv(st) && c in st.chains && k == st.chains[c] && k.pc.HasWorks?
    requires Unled(s) && s in Fresh(k, k.round, k.pc.snaps)
    ensures !Creditable(c, Fresh(k, k.round, k.pc.snaps))
  {
    NewlyAlike(st, c, k, s);
  }

  lemma {:induction false} UnledWrite(st: State, c: Node, first: Snap, s: Snap)
    requires Inv(st) && s in st.all && Unled(s) && !IsCounted(st, s)
    ensures s in WriteStep(st, c, first).all && !IsCounted(WriteStep(st, c, first), s)
  {
    if c in st.chains && st.chains[c].pc.HasWorks? {
      var k := st.chains[c];
      var newly := Fresh(k, k.round, k.pc.snaps);
      if newly == {} || first in newly {
        WriteIs(st, c, k, first, newly);
        if Creditable(c, newly) {
          var moved := Moved(st, c, k.round, k.pc.snaps);
          CountedGrows(st, c, k);
          if s in newly {
            NeverCredited(st, c, k, s);
          }
          assert s !in Counted(moved);
          TalliedFrame(moved, c, newly, first);
        }
      }
    }
  }

  lemma {:induction false} UnledStep(st: State, e: Event, s: Snap)
    requires Inv(st) && s in st.all && Unled(s) && !IsCounted(st, s)
    ensures s in Exec(st, e).all && !IsCounted(Exec(st, e), s)
  {
    if e.WriteWorks? {
      UnledWrite(st, e.c, e.first, s);
    }
  }

  lemma {:induction false} UnledStays(es: seq<Event>, more: seq<Event>, s: Snap)
    requires s in Run(es).all && Unled(s) && !IsCounted(Run(es), s)
    ensures s in Run(es + more).all && !IsCounted(Run(es + more), s)
    decreases |more|
  {
    if more == [] {
      assert es + more == es;
    } else {
      var pre := es + more[..|more| - 1];
      assert es + more == pre + [more[|more| - 1]];
      UnledStays(es, more[..|more| - 1], s);
      RunKeeps(pre);
      UnledStep(Run(pre), more[|more| - 1], s);
    }
  }

  /** A snapshot that is stored without its leader's signature is never counted, however the run
      goes on.  The aggregator of its chain never gets beyond its round, no later snapshot of the
      chain is counted, every read of the round brings it back and every write of it panics. */
  lemma {:induction false} UnledBlocks(es: seq<Event>, more: seq<Event>, s: Snap)
    requires s in Run(es).all && Unled(s) && !IsCounted(Run(es), s)
    ensures var st := Run(es + more);
            && s.chain in st.chains && s in st.kept && st.chains[s.chain].round <= s.round
            && (forall t <- st.all | t.chain == s.chain && t.round > s.round :: !IsCounted(st, t))
    ensures var st := Run(es + more);
            var k := st.chains[s.chain];
            && (k.pc.HasNumber? && k.round == s.round ==>
                  var k' := Exec(st, ReadWorks(s.chain)).chains[s.chain]; k'.pc.HasWorks? && s in k'.pc.snaps)
            && (k.pc.HasWorks? && s in k.pc.snaps ==>
                  forall first <- Fresh(k, k.round, k.pc.snaps) ::
                    WriteRoundWork(st, s.chain, k.round, k.pc.snaps, first).Panic?)
  {
    var st := Run(es + more);
    RunKeeps(es + more);
    UnledStays(es, more, s);
    UnledBehind(st, s);
    var c, k := s.chain, st.chains[s.chain];
    assert k.round == s.round ==> s in InRound(st.kept, c, k.round);
    if k.pc.HasWorks? && s in k.pc.snaps {
      UnledRefused(st, s);
    }
  }

  lemma {:induction false} UnledBehind(st: State, s: Snap)
    requires Inv(st) && s in st.all && !IsCounted(st, s)
    ensures s.chain in st.chains && s in st.kept && st.chains[s.chain].round <= s.round
    ensures forall t <- st.all | t.chain == s.chain && t.round > s.round :: !IsCounted(st, t)
  {
    var k := st.chains[s.chain];
    assert ChainInv(st.all, st.kept, s.chain, k);
    var ss := InRound(st.all, s.chain, k.off);
    assert s.round == k.off ==> s in ss && s.hash in Hashes(ss);
  }

  lemma {:induction false} UnledRefused(st: State, s: Snap)
    requires Inv(st) && s in st.all && Unled(s) && !IsCounted(st, s) && s.chain in st.chains
    requires st.chains[s.chain].pc.HasWorks? && s in st.chains[s.chain].pc.snaps
    ensures var k := st.chains[s.chain];
            forall first <- Fresh(k, k.round, k.pc.snaps) ::
              WriteRoundWork(st, s.chain, k.round, k.pc.snaps, first).Panic?
  {
    var c, k := s.chain, st.chains[s.chain];
    assert ChainInv(st.all, st.kept, c, k);
    var newly := Fresh(k, k.round, k.pc.snaps);
    assert s in newly;
    NeverCredited(st, c, k, s);
    forall first <- newly
      ensures WriteRoundWork(st, c, k.round, k.pc.snaps, first).Panic?
    {
      WriteSucceedsIff(st, c, k, first, newly);
    }
  }

  /** The store of a node comes to hold such a snapshot: it takes whoever signed. */
  lemma {:induction false} UnledExample(c: Node, o: Node) returns (es: seq<Event>, s: Snap)
    requires c != o
    ensures Unled(s) && s.chain == c && s in Run(es).all && !IsCounted(Run(es), s)
    ensures && c in Run(es).chains && Run(es).chains[c] == Chain(0, 0, {}, 0, HasWorks(0, {s}))
            && s in Fresh(Run(es).chains[c], 0, {s}) && WriteRoundWork(Run(es), c, 0, {s}, s).Panic?
  {
    s := Snap(c, 0, 1, 7, {o});
    var e1, e2, e3, e4 := Join(c), Add(s), ReadNumber(c), ReadWorks(c);
    es := [e1, e2, e3, e4];
    RunFour(e1, e2, e3, e4);
    var st0 := State({}, {}, map[], map[], map[]);
    var st1 := SetChain(st0, c, Chain(0, 0, {}, 0, Idle));
    var st2 := State({s}, {s}, st1.chains, map[], map[]);
    var st3 := SetChain(st2, c, Chain(0, 0, {}, 0, HasNumber(0)));
    var st4 := SetChain(st3, c, Chain(0, 0, {}, 0, HasWorks(0, {s})));
    assert InRound({}, c, 0) == {} && InRound({s}, c, 0) == {s};
    assert Exec(st0, e1) == st1;
    assert Exec(st1, e2) == st2;
    assert Exec(st2, e3) == st3;
    assert Exec(st3, e4) == st4;
    UnledFirst(st4, c, s);
  }

  lemma {:induction false} UnledFirst(st: State, c: Node, s: Snap)
    requires c in st.chains && st.chains[c] == Chain(0, 0, {}, 0, HasWorks(0, {s}))
    requires s.signers != {} && c !in s.signers
    ensures s in Fresh(st.chains[c], 0, {s}) && WriteRoundWork(st, c, 0, {s}, s).Panic?
  {
    assert s in Fresh(st.chains[c], 0, {s});
  }

  lemma {:induction false} RunFour(e1: Event, e2: Event, e3: Event, e4: Event)
    ensures Run([e1, e2, e3, e4]) == Exec(Exec(Exec(Exec(State({}, {}, map[], map[], map[]), e1), e2), e3), e4)
  {
    var a, b, d, e := [e1], [e1, e2], [e1, e2, e3], [e1, e2, e3, e4];
    assert a[..0] == [] && b[..1] == a && d[..2] == b && e[..3] == d;
    assert Run(a) == Exec(Run(a[..0]), e1);
    assert Run(b) == Exec(Run(a), e2);
    assert Run(d) == Exec(Run(b), e3);
    assert Run(e) == Exec(Run(d), e4);
  }

  /** Once every snapshot has been aggregated, the counters count everything. */
  lemma {:induction false} CaughtUp(es: seq<Event>, n: Node, d: nat)
    requires var st := Run(es); forall s <- st.all :: IsCounted(st, s)
    ensures var st := Run(es);
            Get(st.lead, n, d) == |Leads(st.all, n, d)| && Get(st.sign, n, d) == |Signs(st.all, n, d)|
  {
    RunKeeps(es);
    var st := Run(es);
    assert Counted(st) == st.all;
  }

  // ----- the store transaction in place

  function ToSet(ss: seq<Snap>): set<Snap> {
    set s | s in ss
  }

  ghost predicate Distinct(ss: seq<Snap>) {
    forall i, j | 0 <= i < j < |ss| :: ss[i] != ss[j]
  }

  /** The new snapshots in the order of the store. */
  function FreshList(k: Chain, round: nat, snaps: seq<Snap>): seq<Snap> {
    if snaps == [] then []
    else
      var last := snaps[|snaps| - 1];
      FreshList(k, round, snaps[..|snaps| - 1]) + (if round == k.off && last.hash in k.counted then [] else [last])
  }

  function First(list: seq<Snap>): Snap {
    if list == [] then Snap(0, 0, 0, 0, {}) else list[0]
  }

  lemma {:induction false} FreshListIs(k: Chain, round: nat, snaps: seq<Snap>)
    requires Distinct(snaps)
    ensures ToSet(FreshList(k, round, snaps)) == Fresh(k, round, ToSet(snaps)) && Distinct(FreshList(k, round, snaps))
    decreases |snaps|
  {
    if snaps != [] {
      var init, last := snaps[..|snaps| - 1], snaps[|snaps| - 1];
      assert snaps == init + [last];
      FreshListIs(k, round, init);
      var list := FreshList(k, round, init);
      assert last !in init;
      forall i | 0 <= i < |list|
        ensures list[i] != last
      {
        assert list[i] in ToSet(list);
      }
      forall s
        ensures s in FreshList(k, round, snaps) <==> s in Fresh(k, round, ToSet(snaps))
      {
        assert s in list <==> s in ToSet(list);
        assert s in ToSet(snaps) <==> s in ToSet(init) || s == last;
      }
    }
  }

  lemma {:induction false} ToSetStep(list: seq<Snap>, i: nat)
    requires i < |list| && Distinct(list)
    ensures ToSet(list[..i + 1]) == ToSet(list[..i]) + {list[i]} && list[i] !in ToSet(list[..i])
  {
    assert list[..i + 1] == list[..i] + [list[i]];
  }

  lemma {:induction false} SignedStep(ss: set<Snap>, s: Snap, n: Node)
    requires s !in ss
    ensures |SignedBy(ss + {s}, n)| == |SignedBy(ss, n)| + (if n in s.signers then 1 else 0)
  {
    assert SignedBy(ss + {s}, n) == if n in s.signers then SignedBy(ss, n) + {s} else SignedBy(ss, n);
  }

  function Tally(wm: map<Node, nat>, n: Node): nat {
    if n in wm then wm[n] else 0
  }

  /** How many of the snapshots each node signed. */
  method CountSigners(list: seq<Snap>) returns (wm: map<Node, nat>)
    requires Distinct(list)
    ensures forall n: Node :: Tally(wm, n) == |SignedBy(ToSet(list), n)|
    ensures forall n: Node :: n in wm <==> SignedBy(ToSet(list), n) != {}
  {
    wm := map[];
    for i := 0 to |list|
      invariant forall n: Node :: Tally(wm, n) == |SignedBy(ToSet(list[..i]), n)|
      invariant forall n: Node :: n in wm <==> SignedBy(ToSet(list[..i]), n) != {}
    {
      ghost var before, ss := wm, ToSet(list[..i]);
      var rest := list[i].signers;
      while rest != {}
        invariant rest <= list[i].signers
        invariant forall n: Node ::
                  Tally(wm, n) == Tally(before, n) + (if n in list[i].signers && n !in rest then 1 else 0)
        invariant forall n: Node :: n in wm <==> n in before || (n in list[i].signers && n !in rest)
        decreases rest
      {
        var n :| n in rest;
        wm := wm[n := Tally(wm, n) + 1];
        rest := rest - {n};
      }
      ToSetStep(list, i);
      forall n: Node
        ensures Tally(wm, n) == |SignedBy(ToSet(list[..i + 1]), n)|
        ensures n in wm <==> SignedBy(ToSet(list[..i + 1]), n) != {}
      {
        SignedStep(ss, list[i], n);
      }
    }
    assert list[..|list|] == list;
  }

  lemma {:induction false} AllSigned(ss: set<Snap>, c: Node)
    ensures |SignedBy(ss, c)| == |ss| <==> forall s <- ss :: c in s.signers
  {
    SubsetSize(SignedBy(ss, c), ss);
    if |SignedBy(ss, c)| == |ss| {
      DisjointSize(SignedBy(ss, c), ss - SignedBy(ss, c));
      assert ss == SignedBy(ss, c) + (ss - SignedBy(ss, c));
    } else {
      assert SignedBy(ss, c) != ss;
    }
  }

  lemma {:induction false} ListSize(list: seq<Snap>)
    requires Distinct(list)
    ensures |ToSet(list)| == |list|
    decreases |list|
  {
    if list != [] {
      var n := |list| - 1;
      ListSize(list[..n]);
      ToSetStep(list, n);
      assert list[..n + 1] == list;
    }
  }

  ghost predicate SameCounters(a: Counters, b: Counters) {
    forall n: Node, d: nat :: Get(a, n, d) == Get(b, n, d)
  }

  /** Every signer but the leader is credited. */
  method CreditSigners(sign: Counters, wm: map<Node, nat>, c: Node, day: nat) returns (sign': Counters)
    ensures forall n: Node, d: nat ::
            Get(sign', n, d) == Get(sign, n, d) + (if n != c && d == day then Tally(wm, n) else 0)
  {
    sign' := sign;
    var todo := wm.Keys - {c};
    forall n: Node | n != c && n !in todo
      ensures Tally(wm, n) == 0
    {
    }
    while todo != {}
      invariant todo <= wm.Keys - {c}
      invariant forall n: Node, d: nat ::
                Get(sign', n, d) == Get(sign, n, d) + (if n != c && d == day && n !in todo then Tally(wm, n) else 0)
      decreases todo
    {
      var n :| n in todo;
      sign' := sign'[(n, day) := Get(sign', n, day) + wm[n]];
      todo := todo - {n};
    }
  }

  method SplitFresh(o: nat, osm: set<Hash>, round: nat, snaps: seq<Snap>, ghost k: Chain)
    returns (list: seq<Snap>, filter: set<Hash>)
    requires k.off == o && k.counted == osm && Distinct(snaps)
    ensures list == FreshList(k, round, snaps) && filter == Hashes(ToSet(snaps))
    ensures Distinct(list) && ToSet(list) == Fresh(k, round, ToSet(snaps))
  {
    list, filter := [], {};
    for i := 0 to |snaps|
      invariant list == FreshList(k, round, snaps[..i]) && filter == Hashes(ToSet(snaps[..i]))
    {
      assert snaps[..i + 1][..i] == snaps[..i];
      ToSetStep(snaps, i);
      assert Hashes(ToSet(snaps[..i + 1])) == Hashes(ToSet(snaps[..i])) + {snaps[i].hash};
      if round != o || snaps[i].hash !in osm {
        list := list + [snaps[i]];
      }
      filter := filter + {snaps[i].hash};
    }
    assert snaps[..|snaps|] == snaps;
    FreshListIs(k, round, snaps);
  }

  method OnOneDay(list: seq<Snap>, day: nat) returns (ok: bool)
    ensures ok <==> forall s <- ToSet(list) :: s.ts > 0 && DayOf(s) == day
  {
    for i := 0 to |list|
      invariant forall s <- list[..i] :: s.ts > 0 && DayOf(s) == day
    {
      if list[i].ts == 0 || DayOf(list[i]) != day {
        assert list[i] in ToSet(list);
        return false;
      }
      assert list[..i + 1] == list[..i] + [list[i]];
    }
    assert list[..|list|] == list;
    return true;
  }

  class WorkStore {
    var off: map<Node, (nat, set<Hash>)>
    var kept: set<Snap>
    var lead: Counters
    var sign: Counters

    constructor ()
      ensures off == map[] && kept == {} && lead == map[] && sign == map[]
    {
      off, kept, lead, sign := map[], {}, map[], map[];
    }

    /** What the store knows of a chain, in the terms of the model. */
    ghost predicate Shows(st: State, c: Node)
      reads this
    {
      && c in st.chains && (if c in off then off[c] else (0, {})) == (st.chains[c].off, st.chains[c].counted)
      && kept == st.kept && SameCounters(lead, st.lead) && SameCounters(sign, st.sign)
    }

    /** Given the distinct snapshots read for a round, it panics (`ok` is false) with nothing
        written, or does exactly what the model's transaction does. */
    method Write(c: Node, round: nat, snaps: seq<Snap>, ghost st: State) returns (ok: bool)
      requires Shows(st, c) && Distinct(snaps)
      modifies this
      ensures var list := FreshList(st.chains[c], round, snaps);
              && (Fresh(st.chains[c], round, ToSet(snaps)) != {} ==>
                  First(list) in Fresh(st.chains[c], round, ToSet(snaps)))
              && var r := WriteRoundWork(st, c, round, ToSet(snaps), First(list));
                 ok == r.Ok? && Shows(if ok then r.state else st, c)
    {
      ghost var k := st.chains[c];
      FirstIn(k, round, snaps);
      var o, osm := if c in off then off[c].0 else 0, if c in off then off[c].1 else {};
      if o > round {
        return true;
      }
      var list, filter := SplitFresh(o, osm, round, snaps, k);
      assert InSequence(k, round, ToSet(snaps)) <==> round <= o + 1 && (round == o ==> osm <= filter);
      if round > o + 1 || (round == o && !(osm <= filter)) {
        return false;
      }
      ghost var moved := Moved(st, c, round, ToSet(snaps));
      ok := Credit(c, list, ToSet(list), moved);
      if ok {
        kept := if round != o then kept - InRound(kept, c, o) else kept;
        off := off[c := (round, filter)];
        TalliedFrame(moved, c, ToSet(list), First(list));
      }
    }

    /** The counters part: panics unless the new snapshots are regular. */
    method Credit(c: Node, list: seq<Snap>, ghost newly: set<Snap>, ghost st: State) returns (ok: bool)
      requires Distinct(list) && newly == ToSet(list) && SameCounters(lead, st.lead) && SameCounters(sign, st.sign)
      modifies this`lead, this`sign
      ensures ok == Acceptable(c, newly, First(list))
      ensures !ok ==> lead == old(lead) && sign == old(sign)
      ensures ok ==> var t := Tallied(st, c, newly, First(list));
                     SameCounters(lead, t.lead) && SameCounters(sign, t.sign)
    {
      if list == [] {
        return true;
      }
      assert list[0] in newly;
      if list[0].signers == {} {
        return true;
      }
      var day := DayOf(list[0]);
      var regular := OnOneDay(list, day);
      if !regular {
        return false;
      }
      var wm := CountSigners(list);
      AllSigned(newly, c);
      ListSize(list);
      if Tally(wm, c) != |list| {
        return false;
      }
      sign := CreditSigners(sign, wm, c, day);
      lead := lead[(c, day) := Get(lead, c, day) + Tally(wm, c)];
      TalliedGet(st, c, newly, First(list), old(lead), old(sign), lead, sign);
      return true;
    }
  }

  lemma {:induction false} TalliedFrame(st: State, c: Node, newly: set<Snap>, first: Snap)
    ensures var t := Tallied(st, c, newly, first); t.chains == st.chains && t.kept == st.kept && t.all == st.all
  {
  }

  lemma {:induction false} TalliedGet(st: State, c: Node, newly: set<Snap>, first: Snap, lead: Counters,
                                      sign: Counters, lead': Counters, sign': Counters)
    requires newly != {} && first.signers != {}
    requires SameCounters(lead, st.lead) && SameCounters(sign, st.sign)
    requires lead' == lead[(c, DayOf(first)) := Get(lead, c, DayOf(first)) + |newly|]
    requires forall n: Node, d: nat ::
             Get(sign', n, d) == Get(sign, n, d) + (if n != c && d == DayOf(first) then |SignedBy(newly, n)| else 0)
    ensures var t := Tallied(st, c, newly, first); SameCounters(lead', t.lead) && SameCounters(sign', t.sign)
  {
    var day := DayOf(first);
    forall n: Node, d: nat
      ensures Get(AddSigns(st.sign, c, newly, day), n, d) == Get(sign', n, d)
    {
      AddSignsGet(st.sign, c, newly, day, n, d);
    }
    forall n: Node, d: nat
      ensures Get(st.lead[(c, day) := Get(st.lead, c, day) + |newly|], n, d) == Get(lead', n, d)
    {
      assert Get(lead, n, d) == Get(st.lead, n, d);
    }
  }

  lemma {:induction false} FirstIn(k: Chain, round: nat, snaps: seq<Snap>)
    requires Distinct(snaps)
    ensures Fresh(k, round, ToSet(snaps)) != {} ==> First(FreshList(k, round, snaps)) in Fresh(k, round, ToSet(snaps))
  {
    FreshListIs(k, round, snaps);
    var list := FreshList(k, round, snaps);
    assert list != [] ==> list[0] in ToSet(list);
  }
}
