/** The pool of final snapshots a chain has received ahead of its head round, kept in a ring of
    slots, and the recent history of final rounds. */
module FinalPool {
  type Hash = nat
  type Peer = nat

  const SLOTS := 800
  const ROUND_SIZE := 1024

  datatype Option<+T> = None | Some(value: T)

  /** A received snapshot and the first peers that sent it. */
  datatype Received = Received(hash: Hash, peers: seq<Peer>)

  datatype Slot = Slot(number: nat, snaps: seq<Received>)

  // ----- a round's list, as a value

  function Find(snaps: seq<Received>, h: Hash): Option<nat> {
    if snaps == [] then None
    else if snaps[|snaps| - 1].hash == h then Some(|snaps| - 1)
    else Find(snaps[..|snaps| - 1], h)
  }

  lemma {:induction false} FindMeaning(snaps: seq<Received>, h: Hash)
    ensures var i := Find(snaps, h);
            if i.Some? then i.value < |snaps| && snaps[i.value].hash == h else forall s <- snaps :: s.hash != h
    decreases |snaps|
  {
    if snaps != [] {
      FindMeaning(snaps[..|snaps| - 1], h);
      assert snaps == snaps[..|snaps| - 1] + [snaps[|snaps| - 1]];
    }
  }

  /** A snapshot is listed once; up to three peers are remembered for it. */
  function Note(snaps: seq<Received>, h: Hash, peer: Peer): (r: seq<Received>)
    ensures |snaps| <= |r| <= |snaps| + 1
  {
    FindMeaning(snaps, h);
    var i := Find(snaps, h);
    if i.None? then snaps + [Received(h, [peer])]
    else
      var p := snaps[i.value].peers;
      if |p| < 3 && peer !in p then snaps[i.value := Received(h, p + [peer])] else snaps
  }

  ghost predicate ListInv(snaps: seq<Received>) {
    && (forall i, j | 0 <= i < j < |snaps| :: snaps[i].hash != snaps[j].hash)
    && (forall s <- snaps :: 1 <= |s.peers| <= 3 && forall i, j | 0 <= i < j < |s.peers| :: s.peers[i] != s.peers[j])
  }

  ghost predicate Lists(snaps: seq<Received>, h: Hash) {
    exists s <- snaps :: s.hash == h
  }

  lemma {:induction false} NoteKeeps(snaps: seq<Received>, h: Hash, peer: Peer)
    requires ListInv(snaps)
    ensures ListInv(Note(snaps, h, peer))
    ensures forall g: Hash :: Lists(Note(snaps, h, peer), g) <==> g == h || Lists(snaps, g)
  {
    FindMeaning(snaps, h);
    var r := Note(snaps, h, peer);
    forall g: Hash
      ensures Lists(r, g) <==> g == h || Lists(snaps, g)
    {
      if s :| s in snaps && s.hash == g {
        var i :| 0 <= i < |snaps| && snaps[i] == s;
        assert r[i].hash == g && r[i] in r;
      }
      if g == h && Find(snaps, h).Some? {
        assert r[Find(snaps, h).value] in r;
      }
      if g == h && Find(snaps, h).None? {
        assert r[|snaps|] in r;
      }
      if s :| s in r && s.hash == g {
        var i :| 0 <= i < |r| && r[i] == s;
        if i < |snaps| {
          assert snaps[i] in snaps && snaps[i].hash == g;
        }
      }
    }
  }

  /** The peers remembered for a snapshot. */
  ghost function PeersOf(snaps: seq<Received>, h: Hash): set<Peer> {
    set s <- snaps, p <- s.peers | s.hash == h :: p
  }

  function ToSet(ps: seq<Peer>): set<Peer> {
    set p | p in ps
  }

  lemma {:induction false} PeersAt(snaps: seq<Received>, i: nat)
    requires ListInv(snaps) && i < |snaps|
    ensures var peers := PeersOf(snaps, snaps[i].hash); peers == ToSet(snaps[i].peers) && |peers| == |snaps[i].peers|
  {
    forall s <- snaps | s.hash == snaps[i].hash
      ensures s == snaps[i]
    {
      var j :| 0 <= j < |snaps| && snaps[j] == s;
      assert !(i < j) && !(j < i);
    }
    assert snaps[i] in snaps;
    DistinctSize(snaps[i].peers);
  }

  lemma {:induction false} DistinctSize(ps: seq<Peer>)
    requires forall i, j | 0 <= i < j < |ps| :: ps[i] != ps[j]
    ensures |ToSet(ps)| == |ps|
    decreases |ps|
  {
    if ps != [] {
      var init, last := ps[..|ps| - 1], ps[|ps| - 1];
      DistinctSize(init);
      assert ps == init + [last] && last !in init;
      assert ToSet(ps) == ToSet(init) + {last};
    }
  }

  lemma {:induction false} FirstPeer(snaps: seq<Received>, h: Hash, peer: Peer, g: Hash)
    requires ListInv(snaps) && (forall s <- snaps :: s.hash != h)
    ensures PeersOf(snaps, h) == {}
    ensures PeersOf(snaps + [Received(h, [peer])], g) == if g == h then {peer} else PeersOf(snaps, g)
  {
    var added := Received(h, [peer]);
    var r := snaps + [added];
    assert forall s :: s in r <==> s in snaps || s == added;
    assert r[|snaps|] == added && added in r && peer in added.peers;
  }

  /** The first three peers that sent a snapshot are remembered for it, and for no other. */
  lemma {:induction false} NotePeers(snaps: seq<Received>, h: Hash, peer: Peer, g: Hash)
    requires ListInv(snaps)
    ensures var before := PeersOf(snaps, g);
            PeersOf(Note(snaps, h, peer), g) == if g == h && |before| < 3 then before + {peer} else before
  {
    FindMeaning(snaps, h);
    if Find(snaps, h).None? {
      FirstPeer(snaps, h, peer, g);
    } else {
      NoteKeeps(snaps, h, peer);
      NextPeer(snaps, Note(snaps, h, peer), Find(snaps, h).value, peer, g);
    }
  }

  lemma {:induction false} NextPeer(snaps: seq<Received>, r: seq<Received>, i: nat, peer: Peer, g: Hash)
    requires ListInv(snaps) && ListInv(r) && i < |snaps|
    requires var h, p := snaps[i].hash, snaps[i].peers;
             r == if |p| < 3 && peer !in p then snaps[i := Received(h, p + [peer])] else snaps
    ensures var before := PeersOf(snaps, g);
            PeersOf(r, g) == if g == snaps[i].hash && |before| < 3 then before + {peer} else before
  {
    if g == snaps[i].hash {
      PeersAt(snaps, i);
      PeersAt(r, i);
    } else {
      SamePeers(snaps, r, i, g);
    }
  }

  lemma {:induction false} SamePeers(snaps: seq<Received>, r: seq<Received>, i: nat, g: Hash)
    requires i < |snaps| == |r| && r == snaps[i := r[i]] && r[i].hash == snaps[i].hash != g
    ensures PeersOf(r, g) == PeersOf(snaps, g)
  {
    forall s: Received | s.hash == g
      ensures s in r <==> s in snaps
    {
      if s in snaps {
        var j :| 0 <= j < |snaps| && snaps[j] == s;
        assert r[j] == s;
      }
      if s in r {
        var j :| 0 <= j < |r| && r[j] == s;
        assert snaps[j] == s;
      }
    }
  }

  // ----- slots

  function SlotOf(base: int, r: nat): nat { (r - base) % SLOTS }

  /** The rounds of one slot are a whole number of rings apart. */
  lemma {:induction false} SameSlot(base: int, r: nat, q: nat)
    requires SlotOf(base, r) == SlotOf(base, q) && r < q
    ensures r + SLOTS <= q
  {
  }

  lemma {:induction false} SlotStep(base: int, start: nat, fi: nat, r: nat)
    requires fi == SlotOf(base, start) && r >= start
    ensures (r - start + fi) % SLOTS == SlotOf(base, r)
    ensures (fi + 1) % SLOTS == SlotOf(base, start + 1)
  {
  }

  /** The snapshots a slot holds for round `r`: nothing if it still holds an older round. */
  function Content(slot: Option<Slot>, r: nat): seq<Received> {
    if slot.Some? && slot.value.number == r then slot.value.snaps else []
  }

  type Slots = seq<Option<Slot>>

  function Listed(accepted: map<nat, seq<Received>>, r: nat): seq<Received> {
    if r in accepted then accepted[r] else []
  }

  /** Each slot holds a round of its own residue below the window's end. */
  ghost predicate Placed(slots: Slots, base: int, start: nat) {
    |slots| == SLOTS && forall j | 0 <= j < SLOTS && slots[j].Some? ::
      SlotOf(base, slots[j].value.number) == j && slots[j].value.number < start + SLOTS
  }

  /** For every round in the window the slot holds exactly what was accepted, or nothing newer
      than a round that has expired. */
  ghost predicate Refines(slots: Slots, base: int, start: nat, accepted: map<nat, seq<Received>>)
    requires |slots| == SLOTS
  {
    forall r: nat | start <= r < start + SLOTS :: Content(slots[SlotOf(base, r)], r) == Listed(accepted, r)
  }

  ghost predicate ListsInv(accepted: map<nat, seq<Received>>, start: nat) {
    forall r <- accepted :: r < start + SLOTS && ListInv(accepted[r]) && |accepted[r]| <= ROUND_SIZE
  }

  lemma {:induction false} WriteSlot(slots: Slots, base: int, start: nat, accepted: map<nat, seq<Received>>,
                                     round: nat, list: seq<Received>)
    requires Placed(slots, base, start) && Refines(slots, base, start, accepted) && start <= round < start + SLOTS
    ensures var slots' := slots[SlotOf(base, round) := Some(Slot(round, list))];
            Placed(slots', base, start) && Refines(slots', base, start, accepted[round := list])
  {
    OtherRounds(base, start, round);
  }

  lemma {:induction false} MoveWindow(slots: Slots, base: int, start: nat, accepted: map<nat, seq<Received>>)
    requires Placed(slots, base, start) && Refines(slots, base, start, accepted) && ListsInv(accepted, start)
    ensures Placed(slots, base, start + 1) && Refines(slots, base, start + 1, accepted) && ListsInv(accepted, start + 1)
  {
    var last := start + SLOTS;
    assert slots[SlotOf(base, last)].Some? ==> slots[SlotOf(base, last)].value.number != last;
  }

  class Pool {
    var pool: array<Option<Slot>>
    var index: nat
    var start: nat  // the head round's number, 0 before the chain has a state
    var ready: bool
    ghost var base: int
    ghost var accepted: map<nat, seq<Received>>

    ghost predicate Valid()
      reads this, pool
    {
      && pool.Length == SLOTS && index == SlotOf(base, start)
      && Placed(pool[..], base, start) && Refines(pool[..], base, start, accepted) && ListsInv(accepted, start)
    }

    constructor (number: nat, hasState: bool)
      requires !hasState ==> number == 0
      ensures Valid() && fresh(pool) && start == number && ready == hasState && accepted == map[]
    {
      pool := new Option<Slot>[SLOTS](i => None);
      index, start, ready := 0, number, hasState;
      base, accepted := number, map[];
    }

    /** The head moves to the next round: what was accepted stays, the round left behind
        expires. */
    method StepForward()
      requires Valid()
      modifies this
      ensures Valid() && pool == old(pool) && start == old(start) + 1 && ready
      ensures accepted == old(accepted)
    {
      SlotStep(base, start, index, start);
      MoveWindow(pool[..], base, start, accepted);
      index := (index + 1) % SLOTS;
      start, ready := start + 1, true;
    }

    /** The slot at the head's index must hold the head's round or the one a ring earlier. */
    predicate Matches()
      reads this, pool
      requires index < pool.Length
    {
      pool[index].None? || pool[index].value.number == start || pool[index].value.number + SLOTS == start
    }

    lemma {:induction false} MatchesIff()
      requires Valid()
      ensures Matches() <==> pool[index].None? || pool[index].value.number + SLOTS >= start
    {
      if pool[index].Some? {
        assert pool[..][index] == pool[index];
        RetryIff(base, start, pool[index].value.number);
      }
    }

    /** Refines a map from rounds to lists: inside the window the snapshot is noted for its round
        and for no other; outside it, or on a retry or a full round, nothing changes. */
    method Append(peer: Peer, h: Hash, round: nat) returns (retry: bool, ok: bool)
      requires Valid()
      modifies this, pool
      ensures Valid() && pool == old(pool) && start == old(start) && index == old(index)
      ensures retry <==> ready && old(pool[index].Some? && pool[index].value.number + 800 < start)
      ensures var inWindow := start <= round < start + SLOTS;
              && ok == (retry || !inWindow || |Listed(old(accepted), round)| < ROUND_SIZE)
              && accepted == if !retry && inWindow && ok
                             then old(accepted)[round := Note(Listed(old(accepted), round), h, peer)] else old(accepted)
    {
      MatchesIff();
      if ready && !Matches() {
        return true, true;
      }
      if round < start || round - start >= SLOTS {
        return false, true;
      }
      SlotStep(base, start, index, round);
      var offset := (round - start + index) % SLOTS;
      var snaps := if pool[offset].Some? && pool[offset].value.number == round then pool[offset].value.snaps else [];
      assert snaps == Content(pool[..][offset], round) == Listed(accepted, round);
      if |snaps| == ROUND_SIZE {
        return false, false;
      }
      NoteKeeps(snaps, h, peer);
      Write(offset, round, Note(snaps, h, peer));
      return false, true;
    }

    method Write(offset: nat, round: nat, list: seq<Received>)
      requires Valid() && start <= round < start + SLOTS && offset == SlotOf(base, round)
      requires ListInv(list) && |list| <= ROUND_SIZE
      modifies this, pool
      ensures Valid() && pool == old(pool) && start == old(start) && index == old(index) && ready == old(ready)
      ensures accepted == old(accepted)[round := list]
    {
      WriteSlot(pool[..], base, start, accepted, round, list);
      ghost var slots := pool[..];
      pool[offset] := Some(Slot(round, list));
      assert pool[..] == slots[offset := Some(Slot(round, list))];
      accepted := accepted[round := list];
    }
  }

  /** Different rounds of the window have different slots. */
  lemma {:induction false} OtherRounds(base: int, start: nat, r: nat)
    requires start <= r < start + SLOTS
    ensures forall q: nat | start <= q < start + SLOTS && q != r :: SlotOf(base, q) != SlotOf(base, r)
  {
    forall q: nat | start <= q < start + SLOTS && q != r
      ensures SlotOf(base, q) != SlotOf(base, r)
    {
      if SlotOf(base, q) == SlotOf(base, r) {
        if q < r {
          SameSlot(base, q, r);
        } else {
          SameSlot(base, r, q);
        }
      }
    }
  }

  /** A slot is given to another round only when the round it held has expired. */
  lemma {:induction false} OverwritesExpired(base: int, start: nat, held: nat, round: nat)
    requires held < start + SLOTS && start <= round < start + SLOTS
    requires SlotOf(base, held) == SlotOf(base, round) && held != round
    ensures held < start && held + SLOTS <= round
  {
    if held < round {
      SameSlot(base, held, round);
    } else {
      SameSlot(base, round, held);
    }
  }

  /** The retry is taken if and only if the slot at the head's index has been left untouched for
      more than a ring of rounds. */
  lemma {:induction false} RetryIff(base: int, start: nat, slot: nat)
    requires SlotOf(base, slot) == SlotOf(base, start) && slot < start + SLOTS
    ensures !(slot == start || slot + SLOTS == start) <==> slot + SLOTS < start
  {
    if slot < start {
      SameSlot(base, slot, start);
    } else if start < slot {
      SameSlot(base, start, slot);
    }
  }

  // ----- the history of final rounds

  const HISTORY := 10
  const HISTORY_TIME := 10 * 3000000000 * 64

  datatype Final = Final(number: nat, start: nat)

  /** Consecutive numbers and increasing starts. */
  ghost predicate Consecutive(rs: seq<Final>) {
    forall i, j | 0 <= i < j < |rs| :: rs[j].number == rs[i].number + (j - i) && rs[i].start < rs[j].start
  }

  predicate Recent(r: Final, last: Final) {
    r.start + HISTORY_TIME > last.start
  }

  lemma {:induction false} SuffixConsecutive(rs: seq<Final>, k: nat)
    requires Consecutive(rs) && k <= |rs|
    ensures Consecutive(rs[k..])
  {
    var t := rs[k..];
    forall i, j | 0 <= i < j < |t|
      ensures t[j].number == t[i].number + (j - i) && t[i].start < t[j].start
    {
      assert t[i] == rs[k + i] && t[j] == rs[k + j];
    }
  }

  lemma {:induction false} RecentOn(rounds: seq<Final>, last: Final, k: nat, n: nat)
    requires Consecutive(rounds) && k <= n < |rounds| && (k < n ==> Recent(rounds[k], last))
    ensures k < n ==> Recent(rounds[n], last)
  {
    if k < n {
      assert rounds[k].start < rounds[n].start;
    }
  }

  /** With increasing starts the old rounds are the first ones. */
  method DropOld(rounds: seq<Final>, last: Final) returns (rs: seq<Final>)
    requires Consecutive(rounds)
    ensures |rs| <= |rounds| && rs == rounds[|rounds| - |rs|..]
    ensures forall i | 0 <= i < |rounds| - |rs| :: !Recent(rounds[i], last)
    ensures forall i | |rounds| - |rs| <= i < |rounds| :: Recent(rounds[i], last)
  {
    rs := [];
    ghost var drop := 0;
    for n := 0 to |rounds|
      invariant 0 <= drop <= n && rs == rounds[drop..n]
      invariant forall i | 0 <= i < drop :: !Recent(rounds[i], last)
      invariant forall i | drop <= i < n :: Recent(rounds[i], last)
    {
      RecentOn(rounds, last, drop, n);
      if Recent(rounds[n], last) {
        rs := rs + [rounds[n]];
      } else {
        drop := n + 1;
      }
    }
  }

  /** Drops old rounds and keeps at most ten; what is left is the end of the history. */
  method ReduceHistory(rounds: seq<Final>) returns (rs: seq<Final>)
    requires rounds != [] && Consecutive(rounds)
    ensures 1 <= |rs| <= HISTORY && Consecutive(rs) && rs[|rs| - 1] == rounds[|rounds| - 1]
    ensures exists k: nat :: k < |rounds| && Kept(rounds, k) && rs == rounds[k..]
  {
    var last := rounds[|rounds| - 1];
    if Recent(rounds[0], last) && |rounds| <= HISTORY {
      FirstRecent(rounds);
      assert Kept(rounds, 0) && rounds[0..] == rounds;
      return rounds;
    }
    rs := DropOld(rounds, last);
    assert Recent(rounds[|rounds| - 1], last);
    ghost var k := |rounds| - |rs|;
    if |rs| > HISTORY {
      k := |rounds| - HISTORY;
      rs := rs[|rs| - HISTORY..];
    }
    assert rs == rounds[k..] && Kept(rounds, k);
    SuffixConsecutive(rounds, k);
  }

  /** From position `k` on all rounds are of the last 32 minutes and at most ten; the one before, if
      any, is older or the eleventh. */
  ghost predicate Kept(rounds: seq<Final>, k: nat)
    requires k < |rounds|
  {
    var last := rounds[|rounds| - 1];
    && |rounds| - k <= 10 && (forall i | k <= i < |rounds| :: last.start < rounds[i].start + 1920 * 1000000000)
    && (k > 0 ==> rounds[k - 1].start + 1920 * 1000000000 <= last.start || |rounds| - k == 10)
  }

  lemma {:induction false} FirstRecent(rounds: seq<Final>)
    requires rounds != [] && Consecutive(rounds) && Recent(rounds[0], rounds[|rounds| - 1])
    ensures forall i | 0 <= i < |rounds| :: Recent(rounds[i], rounds[|rounds| - 1])
  {
    forall i | 0 < i < |rounds|
      ensures Recent(rounds[i], rounds[|rounds| - 1])
    {
      assert rounds[0].start < rounds[i].start;
    }
  }

  /** Assigning a final round: the same round again changes nothing, the next one is appended and
      the history reduced, so it stays a consecutive run that ends at the final round. */
  method AssignFinal(history: seq<Final>, final: Final) returns (ok: bool, rs: seq<Final>)
    requires 1 <= |history| <= HISTORY && Consecutive(history)
    requires final.number == history[|history| - 1].number + 1 ==> final.start > history[|history| - 1].start
    ensures ok == (final.number == history[|history| - 1].number || final.number == history[|history| - 1].number + 1)
    ensures ok ==> 1 <= |rs| <= HISTORY && Consecutive(rs) && rs[|rs| - 1].number == final.number
    ensures if ok && final.number > history[|history| - 1].number
            then exists k: nat :: k <= |history| && Kept(history + [final], k) && rs == (history + [final])[k..]
            else rs == history
  {
    var n := history[|history| - 1].number;
    if n == final.number {
      return true, history;
    }
    if n + 1 != final.number {
      return false, history;
    }
    forall i | 0 <= i < |history|
      ensures final.number == history[i].number + (|history| - i) && history[i].start < final.start
    {
      if i < |history| - 1 {
        assert history[|history| - 1].number == history[i].number + (|history| - 1 - i);
      }
    }
    rs := ReduceHistory(history + [final]);
    return true, rs;
  }
}
