/** The lock-free multi-producer multi-consumer ring buffer.

    Every atomic load, compare-and-swap and store of `put` and `Poll` is one step of one
    thread, so a run is any interleaving of steps of any number of threads.  The auxiliary
    fields record history only: which item won each queue ticket (`claimed`), which thread
    still works on a ticket (`writing`, `reading`) and what `Poll` handed out (`delivered`). */
module RingProtocol {
  import Arith

  type Item = nat
  type Ticket = nat
  type Thread = nat

  datatype Option<+T> = None | Some(value: T)

  datatype Slot = Slot(position: nat, data: Option<Item>)

  /** Where a thread inside `put` stands: each constructor names the access it performs next. */
  datatype PutPc =
    | PutLoadDisposed(item: Item, offer: bool, pos: nat)
    | PutLoadPosition(item: Item, offer: bool, pos: nat)
    | PutCas(item: Item, offer: bool, pos: nat)
    | PutReload(item: Item, offer: bool)
    | PutStoreData(item: Item, pos: nat)
    | PutStorePosition(item: Item, pos: nat)

  /** The same for a thread inside `Poll`. */
  datatype PollPc =
    | PollLoadDisposed(block: bool, pos: nat)
    | PollLoadPosition(block: bool, pos: nat)
    | PollCas(block: bool, pos: nat)
    | PollReload(block: bool)
    | PollLoadData(pos: nat)
    | PollClearData(pos: nat, got: Option<Item>)
    | PollStorePosition(pos: nat, got: Option<Item>)

  datatype Pc = Idle | Put(put: PutPc) | Poll(poll: PollPc)
  {
    predicate Writes(k: Ticket) {
      Put? && (put.PutStoreData? || put.PutStorePosition?) && put.pos == k
    }

    predicate Reads(k: Ticket) {
      Poll? && (poll.PollLoadData? || poll.PollClearData? || poll.PollStorePosition?) && poll.pos == k
    }
  }

  datatype Ring = Ring(
    queue: nat,
    dequeue: nat,
    disposed: bool,
    slots: seq<Slot>,
    threads: map<Thread, Pc>,
    claimed: seq<Item>,
    writing: map<Ticket, Thread>,
    reading: map<Ticket, Thread>,
    delivered: map<Ticket, Option<Item>>)
  {
    function PcOf(t: Thread): Pc {
      if t in threads then threads[t] else Idle
    }

    function At(t: Thread, pc: Pc): Ring {
      this.(threads := threads[t := pc])
    }

    function SlotOf(pos: nat): Slot
      requires |slots| > 0
    {
      slots[Index(pos, |slots|)]
    }

    function Stored(pos: nat, slot: Slot): seq<Slot>
      requires |slots| > 0
    {
      slots[Index(pos, |slots|) := slot]
    }

    /** A producer's compare-and-swap wins ticket `pos`. */
    function Claim(t: Thread, item: Item, pos: Ticket): Ring {
      Ring(pos + 1, dequeue, disposed, slots, threads[t := Put(PutStoreData(item, pos))],
           claimed + [item], writing[pos := t], reading, delivered)
    }

    function StoreData(t: Thread, item: Item, pos: Ticket): Ring
      requires |slots| > 0
    {
      Ring(queue, dequeue, disposed, Stored(pos, Slot(SlotOf(pos).position, Some(item))),
           threads[t := Put(PutStorePosition(item, pos))], claimed, writing, reading, delivered)
    }

    function Publish(t: Thread, pos: Ticket): Ring
      requires |slots| > 0
    {
      Ring(queue, dequeue, disposed, Stored(pos, Slot(pos + 1, SlotOf(pos).data)),
           threads[t := Idle], claimed, writing - {pos}, reading, delivered)
    }

    /** A consumer's compare-and-swap wins ticket `pos`. */
    function Take(t: Thread, pos: Ticket): Ring {
      Ring(queue, pos + 1, disposed, slots, threads[t := Poll(PollLoadData(pos))], claimed, writing,
           reading[pos := t], delivered)
    }

    function ClearData(t: Thread, pos: Ticket, got: Option<Item>): Ring
      requires |slots| > 0
    {
      Ring(queue, dequeue, disposed, Stored(pos, Slot(SlotOf(pos).position, None)),
           threads[t := Poll(PollStorePosition(pos, got))], claimed, writing, reading, delivered)
    }

    function Release(t: Thread, pos: Ticket, got: Option<Item>): Ring
      requires |slots| > 0
    {
      Ring(queue, dequeue, disposed, Stored(pos, Slot(pos + |slots|, SlotOf(pos).data)),
           threads[t := Idle], claimed, writing, reading - {pos}, delivered[pos := got])
    }

    /** The abstract bounded queue: claimed but not yet polled, oldest first. */
    function Contents(): seq<Item>
      requires dequeue <= queue == |claimed|
    {
      claimed[dequeue..queue]
    }
  }

  /** `pos & mask` for a power-of-two size, as repeated subtraction. */
  function Index(pos: nat, size: nat): (i: nat)
    requires size > 0
    ensures i < size
  {
    if pos < size then pos else Index(pos - size, size)
  }

  function Init(size: nat): Ring {
    Ring(0, 0, false, seq(size, (i: nat) => Slot(i, None)), map[], [], map[], map[], map[])
  }

  function PutStep(s: Ring, t: Thread, pc: PutPc): Ring
    requires |s.slots| > 0
  {
    match pc
    case PutLoadDisposed(item, offer, pos) =>
      s.At(t, if s.disposed then Idle else Put(PutLoadPosition(item, offer, pos)))
    case PutLoadPosition(item, offer, pos) =>
      s.At(t, Put(if s.SlotOf(pos).position == pos then PutCas(item, offer, pos) else PutReload(item, offer)))
    case PutCas(item, offer, pos) =>
      if s.queue == pos then s.Claim(t, item, pos)
      else s.At(t, if offer then Idle else Put(PutLoadDisposed(item, offer, pos)))
    case PutReload(item, offer) => s.At(t, if offer then Idle else Put(PutLoadDisposed(item, offer, s.queue)))
    case PutStoreData(item, pos) => s.StoreData(t, item, pos)
    case PutStorePosition(item, pos) => s.Publish(t, pos)
  }

  function PollStep(s: Ring, t: Thread, pc: PollPc): Ring
    requires |s.slots| > 0
  {
    match pc
    case PollLoadDisposed(block, pos) => s.At(t, if s.disposed then Idle else Poll(PollLoadPosition(block, pos)))
    case PollLoadPosition(block, pos) =>
      s.At(t, Poll(if s.SlotOf(pos).position == pos + 1 then PollCas(block, pos) else PollReload(block)))
    case PollCas(block, pos) =>
      if s.dequeue == pos then s.Take(t, pos) else s.At(t, if block then Poll(PollLoadDisposed(block, pos)) else Idle)
    case PollReload(block) => s.At(t, if block then Poll(PollLoadDisposed(block, s.dequeue)) else Idle)
    case PollLoadData(pos) => s.At(t, Poll(PollClearData(pos, s.SlotOf(pos).data)))
    case PollClearData(pos, got) => s.ClearData(t, pos, got)
    case PollStorePosition(pos, got) => s.Release(t, pos, got)
  }

  /** What can happen next: a call, one step of a thread inside a call, or Dispose. */
  datatype Event = CallPut(thread: Thread, item: Item, offer: bool) | CallPoll(thread: Thread, block: bool)
                 | Run(thread: Thread) | Dispose

  function Exec(s: Ring, e: Event): Ring
    requires |s.slots| > 0
  {
    match e
    case CallPut(t, item, offer) => if s.PcOf(t).Idle? then s.At(t, Put(PutLoadDisposed(item, offer, s.queue))) else s
    case CallPoll(t, block) => if s.PcOf(t).Idle? then s.At(t, Poll(PollLoadDisposed(block, s.dequeue))) else s
    case Run(t) =>
      if s.PcOf(t).Put? then PutStep(s, t, s.PcOf(t).put)
      else if s.PcOf(t).Poll? then PollStep(s, t, s.PcOf(t).poll) else s
    case Dispose => s.(disposed := true)
  }

  lemma {:induction false} ExecKeepsSize(s: Ring, e: Event)
    requires |s.slots| > 0
    ensures |Exec(s, e).slots| == |s.slots|
  {
    if e.Run? && s.PcOf(e.thread).Put? {
      match s.PcOf(e.thread).put {
        case PutCas(_, _, _) =>
        case PutStoreData(_, _) =>
        case PutStorePosition(_, _) =>
        case _ =>
      }
    } else if e.Run? && s.PcOf(e.thread).Poll? {
      match s.PcOf(e.thread).poll {
        case PollCas(_, _) =>
        case PollClearData(_, _) =>
        case PollStorePosition(_, _) =>
        case _ =>
      }
    }
  }

  function Execs(s: Ring, es: seq<Event>): (r: Ring)
    requires |s.slots| > 0
    ensures |r.slots| == |s.slots|
    decreases |es|
  {
    if es == [] then s else
      var p := Execs(s, es[..|es| - 1]);
      ExecKeepsSize(p, es[|es| - 1]);
      Exec(p, es[|es| - 1])
  }

  // ----- the invariant

  /** The ticket slot `i` serves: its position is that ticket while the slot is being filled
      and one more once it is filled. */
  function Serving(s: Ring, i: nat): int
    requires i < |s.slots|
  {
    if Index(s.slots[i].position, |s.slots|) == i then s.slots[i].position else s.slots[i].position - 1
  }

  ghost predicate SlotInv(s: Ring, i: nat)
    requires i < |s.slots| && |s.claimed| == s.queue
  {
    var n, slot, k := |s.slots|, s.slots[i], Serving(s, i);
    && 0 <= k && Index(k, n) == i
    && s.queue <= k + n && k < s.dequeue + n
    && (slot.position == k ==>
          && s.dequeue <= k
          && (k >= s.queue ==> slot.data == None)
          && (k < s.queue ==> k in s.writing))
    && (slot.position != k ==>
          && slot.position == k + 1 && k < s.queue
          && (k >= s.dequeue ==> slot.data == Some(s.claimed[k]))
          && (k < s.dequeue ==> k in s.reading))
  }

  ghost predicate PutInv(s: Ring, t: Thread, pc: PutPc)
    requires |s.slots| > 0 && |s.claimed| == s.queue
  {
    match pc
    case PutLoadDisposed(_, _, pos) => pos <= s.queue
    case PutLoadPosition(_, _, pos) => pos <= s.queue
    case PutCas(_, _, pos) => pos <= s.queue && (pos == s.queue ==> s.SlotOf(pos).position == pos)
    case PutReload(_, _) => true
    case PutStoreData(item, pos) =>
      && pos < s.queue && s.claimed[pos] == item && s.SlotOf(pos).position == pos
      && pos in s.writing && s.writing[pos] == t
    case PutStorePosition(item, pos) =>
      && pos < s.queue && s.claimed[pos] == item && s.SlotOf(pos) == Slot(pos, Some(item))
      && pos in s.writing && s.writing[pos] == t
  }

  ghost predicate PollInv(s: Ring, t: Thread, pc: PollPc)
    requires |s.slots| > 0 && |s.claimed| == s.queue
  {
    match pc
    case PollLoadDisposed(_, pos) => pos <= s.dequeue
    case PollLoadPosition(_, pos) => pos <= s.dequeue
    case PollCas(_, pos) => pos <= s.dequeue && (pos == s.dequeue ==> s.SlotOf(pos).position == pos + 1)
    case PollReload(_) => true
    case PollLoadData(pos) =>
      && pos < s.dequeue && pos < s.queue && s.SlotOf(pos) == Slot(pos + 1, Some(s.claimed[pos]))
      && pos in s.reading && s.reading[pos] == t
    case PollClearData(pos, got) =>
      && pos < s.dequeue && pos < s.queue && s.SlotOf(pos).position == pos + 1 && got == Some(s.claimed[pos])
      && pos in s.reading && s.reading[pos] == t
    case PollStorePosition(pos, got) =>
      && pos < s.dequeue && pos < s.queue && s.SlotOf(pos) == Slot(pos + 1, None) && got == Some(s.claimed[pos])
      && pos in s.reading && s.reading[pos] == t
  }

  ghost predicate ThreadInv(s: Ring, t: Thread)
    requires |s.slots| > 0 && |s.claimed| == s.queue
  {
    && (s.PcOf(t).Put? ==> PutInv(s, t, s.PcOf(t).put))
    && (s.PcOf(t).Poll? ==> PollInv(s, t, s.PcOf(t).poll))
  }

  ghost predicate HistoryInv(s: Ring) {
    && s.dequeue <= s.queue == |s.claimed|
    && (forall k <- s.writing :: s.PcOf(s.writing[k]).Writes(k))
    && (forall k <- s.reading :: s.PcOf(s.reading[k]).Reads(k) && k < s.dequeue)
    && (forall k <- s.delivered :: k < s.dequeue && s.delivered[k] == Some(s.claimed[k]) && k !in s.reading)
    && (forall k: nat | k < s.dequeue :: k in s.delivered || k in s.reading)
  }

  ghost predicate Inv(s: Ring) {
    && |s.slots| >= 2
    && HistoryInv(s)
    && (forall i: nat | i < |s.slots| :: SlotInv(s, i))
    && (forall t: Thread :: ThreadInv(s, t))
  }

  // ----- positions and slots

  lemma {:induction false} IndexIsMod(pos: nat, size: nat)
    requires size > 0
    ensures Index(pos, size) == pos % size
  {
    if pos < size {
      Arith.ModUnique(pos, 0, pos, size);
    } else {
      IndexIsMod(pos - size, size);
      var q, r := (pos - size) / size, (pos - size) % size;
      assert size * (q + 1) == size * q + size;
      Arith.ModUnique(pos, q + 1, r, size);
    }
  }

  /** Two tickets of one slot are at least a whole turn apart. */
  lemma {:induction false} IndexGap(a: nat, b: nat, size: nat)
    requires size > 0 && Index(a, size) == Index(b, size) && a < b
    ensures a + size <= b
  {
    if a >= size {
      IndexGap(a - size, b - size, size);
    }
  }

  lemma {:induction false} IndexNext(a: nat, size: nat)
    requires size >= 2
    ensures Index(a + 1, size) != Index(a, size) && Index(a + size, size) == Index(a, size)
  {
    if a >= size {
      IndexNext(a - size, size);
    } else if a + 1 == size {
      assert Index(a + 1, size) == Index(0, size) == 0;
    }
  }

  /** The slot a ticket maps to serves exactly that ticket as long as its position says so. */
  lemma {:induction false} ServingAt(s: Ring, pos: nat)
    requires |s.slots| >= 2
    requires s.SlotOf(pos).position == pos || s.SlotOf(pos).position == pos + 1
    ensures Serving(s, Index(pos, |s.slots|)) == pos
  {
    IndexNext(pos, |s.slots|);
  }

  // ----- every event keeps the invariant

  lemma {:induction false} InitInv(size: nat)
    requires size >= 2
    ensures Inv(Init(size))
  {
    var s := Init(size);
    forall i: nat | i < size
      ensures SlotInv(s, i)
    {
      assert Index(i, size) == i;
    }
  }

  /** A thread that only moves its own program counter, outside the critical accesses. */
  lemma {:induction false} LocalStep(s: Ring, t: Thread, pc: Pc)
    requires Inv(s)
    requires forall k: nat :: !s.PcOf(t).Writes(k) && !s.PcOf(t).Reads(k)
    requires forall k: nat :: !pc.Writes(k) && !pc.Reads(k)
    requires pc.Put? ==> PutInv(s, t, pc.put)
    requires pc.Poll? ==> PollInv(s, t, pc.poll)
    ensures Inv(s.At(t, pc))
  {
    var s' := s.At(t, pc);
    forall i: nat | i < |s.slots|
      ensures SlotInv(s', i)
    {
      assert SlotInv(s, i);
    }
    forall u: Thread
      ensures ThreadInv(s', u)
    {
      assert ThreadInv(s, u);
    }
  }

  lemma {:induction false} ClaimStep(s: Ring, t: Thread, item: Item, pos: Ticket)
    requires Inv(s) && s.PcOf(t).Put? && s.PcOf(t).put.PutCas?
    requires s.PcOf(t).put.item == item && s.PcOf(t).put.pos == pos == s.queue
    ensures Inv(s.Claim(t, item, pos))
  {
    var s' := s.Claim(t, item, pos);
    assert ThreadInv(s, t);
    assert HistoryInv(s');
    forall i: nat | i < |s.slots|
      ensures SlotInv(s', i)
    {
      ClaimSlots(s, t, item, i);
    }
    forall u: Thread
      ensures ThreadInv(s', u)
    {
      assert ThreadInv(s, u);
    }
  }

  lemma {:induction false} ClaimSlots(s: Ring, t: Thread, item: Item, i: nat)
    requires |s.slots| >= 2 && |s.claimed| == s.queue && i < |s.slots| && s.SlotOf(s.queue).position == s.queue
    requires SlotInv(s, i)
    ensures SlotInv(s.Claim(t, item, s.queue), i)
  {
    ServingAt(s, s.queue);
    IndexNext(Serving(s, i), |s.slots|);
  }

  /** A thread that works on a slot is the only one that relies on what the slot holds. */
  ghost predicate Apart(s: Ring, pos: Ticket, pc: Pc)
    requires |s.slots| > 0
  {
    && (pc.Put? && pc.put.PutCas? && pc.put.pos == s.queue ==> Index(pc.put.pos, |s.slots|) != Index(pos, |s.slots|))
    && (pc.Put? && (pc.put.PutStoreData? || pc.put.PutStorePosition?) ==>
          Index(pc.put.pos, |s.slots|) != Index(pos, |s.slots|))
    && (pc.Poll? && pc.poll.PollCas? && pc.poll.pos == s.dequeue ==>
        Index(pc.poll.pos, |s.slots|) != Index(pos, |s.slots|))
    && (pc.Poll? && (pc.poll.PollLoadData? || pc.poll.PollClearData? || pc.poll.PollStorePosition?) ==>
          Index(pc.poll.pos, |s.slots|) != Index(pos, |s.slots|))
  }

  lemma {:induction false} WorkersApart(s: Ring, t: Thread, pos: Ticket, u: Thread)
    requires Inv(s) && u != t && (s.PcOf(t).Writes(pos) || s.PcOf(t).Reads(pos))
    ensures Apart(s, pos, s.PcOf(u))
  {
    assert ThreadInv(s, t) && ThreadInv(s, u);
    ServingAt(s, pos);
    var pc := s.PcOf(u);
    if pc.Put? && !pc.put.PutReload? && Index(pc.put.pos, |s.slots|) == Index(pos, |s.slots|) {
      if pc.put.PutStoreData? || pc.put.PutStorePosition? || (pc.put.PutCas? && pc.put.pos == s.queue) {
        ServingAt(s, pc.put.pos);
      }
    }
    if pc.Poll? && !pc.poll.PollReload? && Index(pc.poll.pos, |s.slots|) == Index(pos, |s.slots|) {
      if pc.Reads(pc.poll.pos) || (pc.poll.PollCas? && pc.poll.pos == s.dequeue) {
        ServingAt(s, pc.poll.pos);
      }
    }
  }

  /** A store into the slot of one ticket leaves a thread alone that relies on another slot. */
  lemma {:induction false} StoreApart(s: Ring, s': Ring, pos: Ticket, x: Slot, u: Thread)
    requires |s.slots| > 0 && |s.claimed| == s.queue && ThreadInv(s, u) && Apart(s, pos, s.PcOf(u))
    requires s'.slots == s.Stored(pos, x) && s'.PcOf(u) == s.PcOf(u)
    requires s'.queue == s.queue && s'.dequeue == s.dequeue && s'.claimed == s.claimed
    requires forall k <- s.writing | k != pos :: k in s'.writing && s'.writing[k] == s.writing[k]
    requires forall k <- s.reading | k != pos :: k in s'.reading && s'.reading[k] == s.reading[k]
    ensures ThreadInv(s', u)
  {
  }

  lemma {:induction false} StoreDataStep(s: Ring, t: Thread, item: Item, pos: Ticket)
    requires Inv(s) && s.PcOf(t) == Put(PutStoreData(item, pos))
    ensures Inv(s.StoreData(t, item, pos))
  {
    var s' := s.StoreData(t, item, pos);
    assert ThreadInv(s, t);
    ServingAt(s, pos);
    forall i: nat | i < |s.slots|
      ensures SlotInv(s', i)
    {
      assert SlotInv(s, i);
    }
    forall u: Thread
      ensures ThreadInv(s', u)
    {
      assert ThreadInv(s, u);
      if u != t {
        WorkersApart(s, t, pos, u);
        StoreApart(s, s', pos, Slot(s.SlotOf(pos).position, Some(item)), u);
      }
    }
  }

  lemma {:induction false} PublishStep(s: Ring, t: Thread, item: Item, pos: Ticket)
    requires Inv(s) && s.PcOf(t) == Put(PutStorePosition(item, pos))
    ensures Inv(s.Publish(t, pos))
  {
    var s', n := s.Publish(t, pos), |s.slots|;
    assert ThreadInv(s, t);
    ServingAt(s, pos);
    ServingAt(s', pos);
    assert SlotInv(s, Index(pos, n));
    forall i: nat | i < n
      ensures SlotInv(s', i)
    {
      assert SlotInv(s, i);
      if i != Index(pos, n) {
        assert Serving(s, i) != pos;
      }
    }
    forall u: Thread
      ensures ThreadInv(s', u)
    {
      assert ThreadInv(s, u);
      if u != t {
        WorkersApart(s, t, pos, u);
        StoreApart(s, s', pos, Slot(pos + 1, s.SlotOf(pos).data), u);
      }
    }
  }

  lemma {:induction false} TakeStep(s: Ring, t: Thread, pos: Ticket)
    requires Inv(s) && s.PcOf(t).Poll? && s.PcOf(t).poll.PollCas? && s.PcOf(t).poll.pos == pos == s.dequeue
    ensures Inv(s.Take(t, pos)) && s.dequeue < s.queue
  {
    var s', n := s.Take(t, pos), |s.slots|;
    assert ThreadInv(s, t);
    ServingAt(s, pos);
    assert SlotInv(s, Index(pos, n));
    assert HistoryInv(s');
    forall i: nat | i < n
      ensures SlotInv(s', i)
    {
      TakeSlots(s, t, i);
    }
    forall u: Thread
      ensures ThreadInv(s', u)
    {
      assert ThreadInv(s, u);
    }
  }

  lemma {:induction false} TakeSlots(s: Ring, t: Thread, i: nat)
    requires |s.slots| >= 2 && |s.claimed| == s.queue && i < |s.slots| && s.SlotOf(s.dequeue).position == s.dequeue + 1
    requires SlotInv(s, i)
    ensures SlotInv(s.Take(t, s.dequeue), i)
  {
    ServingAt(s, s.dequeue);
  }

  lemma {:induction false} LoadDataStep(s: Ring, t: Thread, pos: Ticket)
    requires Inv(s) && s.PcOf(t) == Poll(PollLoadData(pos))
    ensures Inv(s.At(t, Poll(PollClearData(pos, s.SlotOf(pos).data))))
  {
    var s' := s.At(t, Poll(PollClearData(pos, s.SlotOf(pos).data)));
    assert ThreadInv(s, t);
    forall i: nat | i < |s.slots|
      ensures SlotInv(s', i)
    {
      assert SlotInv(s, i);
    }
    forall u: Thread
      ensures ThreadInv(s', u)
    {
      assert ThreadInv(s, u);
    }
  }

  lemma {:induction false} ClearDataStep(s: Ring, t: Thread, pos: Ticket, got: Option<Item>)
    requires Inv(s) && s.PcOf(t) == Poll(PollClearData(pos, got))
    ensures Inv(s.ClearData(t, pos, got))
  {
    var s' := s.ClearData(t, pos, got);
    assert ThreadInv(s, t);
    ServingAt(s, pos);
    forall i: nat | i < |s.slots|
      ensures SlotInv(s', i)
    {
      assert SlotInv(s, i);
    }
    forall u: Thread
      ensures ThreadInv(s', u)
    {
      assert ThreadInv(s, u);
      if u != t {
        WorkersApart(s, t, pos, u);
        StoreApart(s, s', pos, Slot(s.SlotOf(pos).position, None), u);
      }
    }
  }

  lemma {:induction false} ReleaseStep(s: Ring, t: Thread, pos: Ticket, got: Option<Item>)
    requires Inv(s) && s.PcOf(t) == Poll(PollStorePosition(pos, got))
    ensures Inv(s.Release(t, pos, got))
  {
    var s' := s.Release(t, pos, got);
    assert ThreadInv(s, t);
    assert HistoryInv(s');
    forall i: nat | i < |s.slots|
      ensures SlotInv(s', i)
    {
      ReleaseSlots(s, t, pos, got, i);
    }
    forall u: Thread
      ensures ThreadInv(s', u)
    {
      assert ThreadInv(s, u);
      if u != t {
        WorkersApart(s, t, pos, u);
      }
    }
  }

  lemma {:induction false} ReleaseSlots(s: Ring, t: Thread, pos: Ticket, got: Option<Item>, i: nat)
    requires |s.slots| >= 2 && s.dequeue <= s.queue == |s.claimed| && i < |s.slots|
    requires s.SlotOf(pos) == Slot(pos + 1, None) && pos < s.dequeue
    requires SlotInv(s, i)
    ensures SlotInv(s.Release(t, pos, got), i)
  {
    var n := |s.slots|;
    ServingAt(s, pos);
    IndexNext(pos, n);
    assert i == Index(pos, n) ==> Serving(s.Release(t, pos, got), i) == pos + n;
  }

  lemma {:induction false} PutStepInv(s: Ring, t: Thread)
    requires Inv(s) && s.PcOf(t).Put?
    ensures Inv(PutStep(s, t, s.PcOf(t).put))
  {
    assert ThreadInv(s, t);
    match s.PcOf(t).put
    case PutLoadDisposed(x, o, pos) => LocalStep(s, t, if s.disposed then Idle else Put(PutLoadPosition(x, o, pos)));
    case PutLoadPosition(x, o, pos) =>
      LocalStep(s, t, Put(if s.SlotOf(pos).position == pos then PutCas(x, o, pos) else PutReload(x, o)));
    case PutCas(x, o, pos) =>
      if pos == s.queue {
        ClaimStep(s, t, x, pos);
      } else {
        LocalStep(s, t, if o then Idle else Put(PutLoadDisposed(x, o, pos)));
      }
    case PutReload(x, o) => LocalStep(s, t, if o then Idle else Put(PutLoadDisposed(x, o, s.queue)));
    case PutStoreData(x, pos) => StoreDataStep(s, t, x, pos);
    case PutStorePosition(x, pos) => PublishStep(s, t, x, pos);
  }

  lemma {:induction false} PollStepInv(s: Ring, t: Thread)
    requires Inv(s) && s.PcOf(t).Poll?
    ensures Inv(PollStep(s, t, s.PcOf(t).poll))
  {
    assert ThreadInv(s, t);
    match s.PcOf(t).poll
    case PollLoadDisposed(b, pos) => LocalStep(s, t, if s.disposed then Idle else Poll(PollLoadPosition(b, pos)));
    case PollLoadPosition(b, pos) =>
      LocalStep(s, t, Poll(if s.SlotOf(pos).position == pos + 1 then PollCas(b, pos) else PollReload(b)));
    case PollCas(b, pos) =>
      if pos == s.dequeue {
        TakeStep(s, t, pos);
      } else {
        LocalStep(s, t, if b then Poll(PollLoadDisposed(b, pos)) else Idle);
      }
    case PollReload(b) => LocalStep(s, t, if b then Poll(PollLoadDisposed(b, s.dequeue)) else Idle);
    case PollLoadData(pos) => LoadDataStep(s, t, pos);
    case PollClearData(pos, got) => ClearDataStep(s, t, pos, got);
    case PollStorePosition(pos, got) => ReleaseStep(s, t, pos, got);
  }

  lemma {:induction false} ExecInv(s: Ring, e: Event)
    requires Inv(s)
    ensures Inv(Exec(s, e))
  {
    match e
    case CallPut(t, item, offer) =>
      if s.PcOf(t).Idle? {
        LocalStep(s, t, Put(PutLoadDisposed(item, offer, s.queue)));
      }
    case CallPoll(t, block) =>
      if s.PcOf(t).Idle? {
        LocalStep(s, t, Poll(PollLoadDisposed(block, s.dequeue)));
      }
    case Run(t) =>
      if s.PcOf(t).Put? {
        PutStepInv(s, t);
      } else if s.PcOf(t).Poll? {
        PollStepInv(s, t);
      }
    case Dispose => DisposeStep(s);
  }

  lemma {:induction false} DisposeStep(s: Ring)
    requires Inv(s)
    ensures Inv(s.(disposed := true))
  {
    var s' := s.(disposed := true);
    forall i: nat | i < |s.slots|
      ensures SlotInv(s', i)
    {
      assert SlotInv(s, i);
    }
    forall u: Thread
      ensures ThreadInv(s', u)
    {
      assert ThreadInv(s, u);
    }
  }

  lemma {:induction false} RunInv(size: nat, es: seq<Event>)
    requires size >= 2
    ensures Inv(Execs(Init(size), es))
    decreases |es|
  {
    if es == [] {
      InitInv(size);
    } else {
      RunInv(size, es[..|es| - 1]);
      ExecInv(Execs(Init(size), es[..|es| - 1]), es[|es| - 1]);
    }
  }

  // ----- what the invariant means

  /** Never more than the capacity is held. */
  lemma {:induction false} Bounded(s: Ring)
    requires Inv(s)
    ensures |s.Contents()| <= |s.slots|
  {
    if s.queue > s.dequeue {
      var last, n := s.queue - 1, |s.slots|;
      assert SlotInv(s, Index(last, n));
      var k := Serving(s, Index(last, n));
      if k < last {
        IndexGap(k, last, n);
      }
    }
  }

  ghost predicate WinsPut(s: Ring, e: Event) {
    e.Run? && s.PcOf(e.thread).Put? && s.PcOf(e.thread).put.PutCas? && s.PcOf(e.thread).put.pos == s.queue
  }

  ghost predicate WinsPoll(s: Ring, e: Event) {
    e.Run? && s.PcOf(e.thread).Poll? && s.PcOf(e.thread).poll.PollCas? && s.PcOf(e.thread).poll.pos == s.dequeue
  }

  /** Only a winning compare-and-swap moves the ends of the queue. */
  lemma {:induction false} EndsMoveByCas(s: Ring, e: Event)
    requires |s.slots| > 0 && !WinsPut(s, e) && !WinsPoll(s, e)
    ensures var s' := Exec(s, e); s'.queue == s.queue && s'.dequeue == s.dequeue && s'.claimed == s.claimed
  {
    if e.Run? && s.PcOf(e.thread).Put? {
      match s.PcOf(e.thread).put {
        case PutCas(_, _, _) =>
        case PutStoreData(_, _) =>
        case PutStorePosition(_, _) =>
        case _ =>
      }
    } else if e.Run? && s.PcOf(e.thread).Poll? {
      match s.PcOf(e.thread).poll {
        case PollCas(_, _) =>
        case PollClearData(_, _) =>
        case PollStorePosition(_, _) =>
        case _ =>
      }
    }
  }

  lemma {:induction false} ClaimAppends(s: Ring, t: Thread, item: Item)
    requires s.dequeue <= s.queue == |s.claimed|
    ensures s.Claim(t, item, s.queue).Contents() == s.Contents() + [item]
  {
    assert (s.claimed + [item])[s.dequeue..s.queue + 1] == s.claimed[s.dequeue..s.queue] + [item];
  }

  /** Linearizability: against the abstract queue every event is an enqueue at the tail, a
      dequeue at the head or nothing.  The first two happen exactly at a winning
      compare-and-swap, the enqueued item is the caller's, and there was room for it. */
  lemma {:induction false} ExecLinearizes(s: Ring, e: Event)
    requires Inv(s)
    ensures Inv(Exec(s, e))
    ensures WinsPut(s, e) ==>
              |s.Contents()| < |s.slots| && Exec(s, e).Contents() == s.Contents() + [s.PcOf(e.thread).put.item]
    ensures WinsPoll(s, e) ==>
              && s.Contents() != [] && s.claimed[s.dequeue] == s.Contents()[0]
              && Exec(s, e).Contents() == s.Contents()[1..]
              && Exec(s, e).PcOf(e.thread) == Poll(PollLoadData(s.dequeue))
    ensures !WinsPut(s, e) && !WinsPoll(s, e) ==> Exec(s, e).Contents() == s.Contents()
  {
    ExecInv(s, e);
    if WinsPut(s, e) {
      assert ThreadInv(s, e.thread);
      ServingAt(s, s.queue);
      assert SlotInv(s, Index(s.queue, |s.slots|));
      var s' := s.Claim(e.thread, s.PcOf(e.thread).put.item, s.queue);
      assert Exec(s, e) == s';
      ClaimAppends(s, e.thread, s.PcOf(e.thread).put.item);
    } else if WinsPoll(s, e) {
      TakeStep(s, e.thread, s.dequeue);
      assert Exec(s, e) == s.Take(e.thread, s.dequeue);
    } else {
      EndsMoveByCas(s, e);
    }
  }

  /** The poll that won ticket `k` hands out the item that won ticket `k`, once. */
  lemma {:induction false} PollReturnsClaim(s: Ring, t: Thread)
    requires Inv(s) && s.PcOf(t).Poll? && s.PcOf(t).poll.PollStorePosition?
    ensures var k := s.PcOf(t).poll.pos;
            && k < s.queue && k !in s.delivered
            && Exec(s, Run(t)).delivered == s.delivered[k := Some(s.claimed[k])]
  {
    assert ThreadInv(s, t);
  }

  ghost predicate Quiescent(s: Ring) {
    forall t <- s.threads :: s.threads[t].Idle?
  }

  /** In every run at most `size` items are held and everything handed out is what was put in
      under the same ticket.  Once no call is running, the tickets below `dequeue` were each
      handed out exactly once and the rest sit in their slots. */
  lemma {:induction false} RingSafety(size: nat, es: seq<Event>)
    requires size >= 2
    ensures var s := Execs(Init(size), es);
            && s.dequeue <= s.queue == |s.claimed|
            && |s.Contents()| <= size
            && (forall k <- s.delivered :: k < s.dequeue && s.delivered[k] == Some(s.claimed[k]))
            && (Quiescent(s) ==>
                  && (forall k: nat :: k in s.delivered <==> k < s.dequeue)
                  && (forall k: nat | s.dequeue <= k < s.queue :: s.SlotOf(k) == Slot(k + 1, Some(s.claimed[k]))))
  {
    RunInv(size, es);
    var s := Execs(Init(size), es);
    Bounded(s);
    if Quiescent(s) {
      forall k: nat | s.dequeue <= k < s.queue
        ensures s.SlotOf(k) == Slot(k + 1, Some(s.claimed[k]))
      {
        HeldInSlot(s, k);
      }
    }
  }

  lemma {:induction false} HeldInSlot(s: Ring, k: nat)
    requires Inv(s) && Quiescent(s) && s.dequeue <= k < s.queue
    ensures s.SlotOf(k) == Slot(k + 1, Some(s.claimed[k]))
  {
    var n := |s.slots|;
    assert SlotInv(s, Index(k, n));
    var c := Serving(s, Index(k, n));
    if c < k {
      IndexGap(c, k, n);
    } else if c > k {
      IndexGap(k, c, n);
    }
  }

  // ----- calls that meet no interference

  function Solo(s: Ring, t: Thread, steps: nat): (r: Ring)
    requires |s.slots| > 0
    ensures |r.slots| == |s.slots|
    decreases steps
  {
    if steps == 0 then s else
      var p := Solo(s, t, steps - 1);
      ExecKeepsSize(p, Run(t));
      Exec(p, Run(t))
  }

  /** What a thread does next does not depend on where its counter stood before. */
  lemma {:induction false} Overwrites(s: Ring, t: Thread, a: Pc, b: Pc, item: Item, pos: Ticket)
    ensures s.At(t, a).At(t, b) == s.At(t, b)
    ensures s.At(t, a).Claim(t, item, pos) == s.Claim(t, item, pos)
    ensures s.At(t, a).Take(t, pos) == s.Take(t, pos)
  {
    assert s.threads[t := a][t := b] == s.threads[t := b];
    assert s.threads[t := a][t := Put(PutStoreData(item, pos))] == s.threads[t := Put(PutStoreData(item, pos))];
    assert s.threads[t := a][t := Poll(PollLoadData(pos))] == s.threads[t := Poll(PollLoadData(pos))];
  }

  /** The step that looks at `disposed` and the step that looks at the slot move only the counter. */
  lemma {:induction false} OfferChecks(s: Ring, t: Thread, item: Item, pos: Ticket)
    requires |s.slots| > 0 && !s.disposed
    ensures var p0, p1 := Put(PutLoadDisposed(item, true, pos)), Put(PutLoadPosition(item, true, pos));
            var p2 := Put(if s.SlotOf(pos).position == pos then PutCas(item, true, pos) else PutReload(item, true));
            Exec(s.At(t, p0), Run(t)) == s.At(t, p1) && Exec(s.At(t, p1), Run(t)) == s.At(t, p2)
  {
    var p0, p1 := Put(PutLoadDisposed(item, true, pos)), Put(PutLoadPosition(item, true, pos));
    var p2 := Put(if s.SlotOf(pos).position == pos then PutCas(item, true, pos) else PutReload(item, true));
    Overwrites(s, t, p0, p1, item, pos);
    Overwrites(s, t, p1, p2, item, pos);
  }

  /** The first three steps of an undisturbed Offer end in a claim or in giving up. */
  lemma {:induction false} OfferTries(s: Ring, t: Thread, item: Item)
    requires |s.slots| > 0 && s.PcOf(t).Idle? && !s.disposed
    ensures |Exec(s, CallPut(t, item, true)).slots| > 0
    ensures Solo(Exec(s, CallPut(t, item, true)), t, 3) ==
            if s.SlotOf(s.queue).position == s.queue then s.Claim(t, item, s.queue) else s.At(t, Idle)
  {
    var pos, s0 := s.queue, Exec(s, CallPut(t, item, true));
    var p1 := Put(PutLoadPosition(item, true, pos));
    var p2 := Put(if s.SlotOf(pos).position == pos then PutCas(item, true, pos) else PutReload(item, true));
    OfferChecks(s, t, item, pos);
    Overwrites(s, t, p2, Idle, item, pos);
    ThreeSteps(s0, t, s.At(t, p1), s.At(t, p2));
  }

  lemma {:induction false} ThreeSteps(s0: Ring, t: Thread, s1: Ring, s2: Ring)
    requires |s0.slots| > 0 && s1 == Exec(s0, Run(t)) && |s1.slots| > 0 && s2 == Exec(s1, Run(t)) && |s2.slots| > 0
    ensures Solo(s0, t, 3) == Exec(s2, Run(t))
  {
    assert Solo(s0, t, 0) == s0;
    assert Solo(s0, t, 1) == s1;
    assert Solo(s0, t, 2) == s2;
  }

  /** The whole course of an undisturbed Offer. */
  lemma {:induction false} OfferCourse(s: Ring, t: Thread, item: Item)
    requires |s.slots| > 0 && s.PcOf(t).Idle? && !s.disposed
    ensures |Exec(s, CallPut(t, item, true)).slots| > 0
    ensures var r, pos := Solo(Exec(s, CallPut(t, item, true)), t, 5), s.queue;
            r == if s.SlotOf(pos).position == pos then s.Claim(t, item, pos).StoreData(t, item, pos).Publish(t, pos)
                 else s.At(t, Idle)
  {
    var pos, s0 := s.queue, Exec(s, CallPut(t, item, true));
    OfferTries(s, t, item);
    var s3 := Solo(s0, t, 3);
    assert Solo(s0, t, 4) == Exec(s3, Run(t));
    if s.SlotOf(pos).position == pos {
      assert s3.PcOf(t) == Put(PutStoreData(item, pos));
      assert Solo(s0, t, 4) == s3.StoreData(t, item, pos);
    } else {
      assert Solo(s0, t, 4) == s3;
    }
  }

  /** The step that looks at `disposed` and the step that looks at the slot move only the counter. */
  lemma {:induction false} PollChecks(s: Ring, t: Thread, pos: Ticket)
    requires |s.slots| > 0 && !s.disposed
    ensures var p0, p1 := Poll(PollLoadDisposed(false, pos)), Poll(PollLoadPosition(false, pos));
            var p2 := Poll(if s.SlotOf(pos).position == pos + 1 then PollCas(false, pos) else PollReload(false));
            Exec(s.At(t, p0), Run(t)) == s.At(t, p1) && Exec(s.At(t, p1), Run(t)) == s.At(t, p2)
  {
    var p0, p1 := Poll(PollLoadDisposed(false, pos)), Poll(PollLoadPosition(false, pos));
    var p2 := Poll(if s.SlotOf(pos).position == pos + 1 then PollCas(false, pos) else PollReload(false));
    Overwrites(s, t, p0, p1, 0, pos);
    Overwrites(s, t, p1, p2, 0, pos);
  }

  lemma {:induction false} PollTries(s: Ring, t: Thread)
    requires |s.slots| > 0 && s.PcOf(t).Idle? && !s.disposed
    ensures |Exec(s, CallPoll(t, false)).slots| > 0
    ensures Solo(Exec(s, CallPoll(t, false)), t, 3) ==
            if s.SlotOf(s.dequeue).position == s.dequeue + 1 then s.Take(t, s.dequeue) else s.At(t, Idle)
  {
    var pos, s0 := s.dequeue, Exec(s, CallPoll(t, false));
    var p1 := Poll(PollLoadPosition(false, pos));
    var p2 := Poll(if s.SlotOf(pos).position == pos + 1 then PollCas(false, pos) else PollReload(false));
    PollChecks(s, t, pos);
    Overwrites(s, t, p2, Idle, 0, pos);
    ThreeSteps(s0, t, s.At(t, p1), s.At(t, p2));
  }

  /** The whole course of an undisturbed non-blocking Poll. */
  lemma {:induction false} PollCourse(s: Ring, t: Thread)
    requires |s.slots| > 0 && s.PcOf(t).Idle? && !s.disposed
    ensures |Exec(s, CallPoll(t, false)).slots| > 0
    ensures var r, pos := Solo(Exec(s, CallPoll(t, false)), t, 6), s.dequeue;
            var full, got := s.SlotOf(pos).position == pos + 1, s.SlotOf(pos).data;
            var taken := s.Take(t, pos).At(t, Poll(PollClearData(pos, got)));
            r == if full then taken.ClearData(t, pos, got).Release(t, pos, got) else s.At(t, Idle)
  {
    var pos, s0 := s.dequeue, Exec(s, CallPoll(t, false));
    var got := s.SlotOf(pos).data;
    PollTries(s, t);
    var s3 := Solo(s0, t, 3);
    var s4 := Solo(s0, t, 4);
    assert s4 == Exec(s3, Run(t));
    assert Solo(s0, t, 5) == Exec(s4, Run(t));
    if s.SlotOf(pos).position == pos + 1 {
      assert s4 == s3.At(t, Poll(PollClearData(pos, got)));
      var s5 := s4.ClearData(t, pos, got);
      assert Solo(s0, t, 5) == s5;
      assert Solo(s0, t, 6) == s5.Release(t, pos, got);
    } else {
      assert s4 == s3;
      assert Solo(s0, t, 5) == s3;
    }
  }

  /** On a disposed ring a call gives up in its first step. */
  lemma {:induction false} DisposedCourse(s: Ring, call: Event)
    requires |s.slots| > 0 && s.disposed && (call.CallPut? || call.CallPoll?) && s.PcOf(call.thread).Idle?
    ensures |Exec(s, call).slots| > 0 && Solo(Exec(s, call), call.thread, 1) == s.At(call.thread, Idle)
  {
    var t, p := call.thread, Exec(s, call);
    Overwrites(s, t, p.PcOf(t), Idle, 0, 0);
    assert Solo(p, t, 0) == p;
  }

  /** `r` is what is left when a call has returned that met no interference. */
  ghost predicate Undisturbed(s: Ring, call: Event, r: Ring) {
    && |s.slots| > 0 && !call.Dispose? && |Exec(s, call).slots| > 0
    && r.PcOf(call.thread).Idle? && exists steps: nat :: r == Solo(Exec(s, call), call.thread, steps)
  }

  lemma {:induction false} RoomIsAFreeSlot(s: Ring)
    requires Inv(s) && Quiescent(s)
    ensures |s.Contents()| < |s.slots| <==> s.SlotOf(s.queue).position == s.queue
  {
    var n := |s.slots|;
    Bounded(s);
    assert SlotInv(s, Index(s.queue, n));
    var k := Serving(s, Index(s.queue, n));
    if k < s.queue {
      IndexGap(k, s.queue, n);
    } else if k > s.queue {
      IndexGap(s.queue, k, n);
    }
    if s.dequeue + n <= s.queue {
      HeldInSlot(s, s.queue - n);
      IndexNext(s.queue - n, n);
    }
  }

  /** Offer alone on a quiescent, undisposed ring succeeds exactly when there is room. */
  lemma {:induction false} SoloOffer(s: Ring, t: Thread, item: Item)
    requires Inv(s) && Quiescent(s) && !s.disposed
    ensures |Exec(s, CallPut(t, item, true)).slots| > 0
    ensures var r := Solo(Exec(s, CallPut(t, item, true)), t, 5);
            && r.PcOf(t).Idle? && r.dequeue == s.dequeue
            && r.queue == (if |s.Contents()| < |s.slots| then s.queue + 1 else s.queue)
            && r.claimed == (if |s.Contents()| < |s.slots| then s.claimed + [item] else s.claimed)
  {
    RoomIsAFreeSlot(s);
    OfferCourse(s, t, item);
  }

  /** At rest the slot of the oldest ticket is filled exactly when something is held. */
  lemma {:induction false} FilledIsHeld(s: Ring)
    requires Inv(s) && Quiescent(s)
    ensures s.SlotOf(s.dequeue).position == s.dequeue + 1 <==> s.Contents() != []
    ensures s.Contents() != [] ==> s.SlotOf(s.dequeue).data == Some(s.Contents()[0])
  {
    assert SlotInv(s, Index(s.dequeue, |s.slots|));
    if s.dequeue < s.queue {
      HeldInSlot(s, s.dequeue);
    } else if s.SlotOf(s.dequeue).position == s.dequeue + 1 {
      ServingAt(s, s.dequeue);
    }
  }

  /** Poll alone on a quiescent, undisposed ring returns the oldest item, or nothing exactly
      when the ring is empty. */
  lemma {:induction false} SoloPoll(s: Ring, t: Thread)
    requires Inv(s) && Quiescent(s) && !s.disposed
    ensures |Exec(s, CallPoll(t, false)).slots| > 0
    ensures var r := Solo(Exec(s, CallPoll(t, false)), t, 6);
            && r.PcOf(t).Idle? && r.queue == s.queue && r.claimed == s.claimed
            && r.dequeue == (if s.Contents() == [] then s.dequeue else s.dequeue + 1)
            && r.delivered == (if s.Contents() == [] then s.delivered
                               else s.delivered[s.dequeue := Some(s.Contents()[0])])
  {
    PollCourse(s, t);
    FilledIsHeld(s);
  }

  // ----- the length, read with two loads

  /** How many compare-and-swaps of `put` and of `Poll` win in a run. */
  ghost function PutsWon(s: Ring, es: seq<Event>): nat
    requires |s.slots| > 0
    decreases |es|
  {
    if es == [] then 0
    else PutsWon(s, es[..|es| - 1]) + if WinsPut(Execs(s, es[..|es| - 1]), es[|es| - 1]) then 1 else 0
  }

  ghost function PollsWon(s: Ring, es: seq<Event>): nat
    requires |s.slots| > 0
    decreases |es|
  {
    if es == [] then 0
    else PollsWon(s, es[..|es| - 1]) + if WinsPoll(Execs(s, es[..|es| - 1]), es[|es| - 1]) then 1 else 0
  }

  lemma {:induction false} EndsCount(s: Ring, es: seq<Event>)
    requires Inv(s)
    ensures Inv(Execs(s, es))
    ensures Execs(s, es).queue == s.queue + PutsWon(s, es) && Execs(s, es).dequeue == s.dequeue + PollsWon(s, es)
    decreases |es|
  {
    if es != [] {
      var before, e := es[..|es| - 1], es[|es| - 1];
      EndsCount(s, before);
      var p := Execs(s, before);
      ExecLinearizes(p, e);
      if !WinsPut(p, e) && !WinsPoll(p, e) {
        EndsMoveByCas(p, e);
      }
    }
  }

  /** `Len` loads `queue` and, some steps later, `dequeue`.  The difference is the number of items
      at the first load less the polls won in between, and the number at the second load less the
      puts won in between.  It is below zero, and wraps around, exactly when more polls were won in
      between than items were held at the first load. */
  lemma {:induction false} LenBetween(size: nat, before: seq<Event>, between: seq<Event>)
    requires size >= 2
    ensures var s := Execs(Init(size), before);
            var s' := Execs(s, between);
            && s.dequeue <= s.queue == |s.claimed| && s'.dequeue <= s'.queue == |s'.claimed|
            && s.queue - s'.dequeue == |s.Contents()| - PollsWon(s, between)
            && s.queue - s'.dequeue == |s'.Contents()| - PutsWon(s, between)
            && (s.queue < s'.dequeue <==> |s.Contents()| < PollsWon(s, between))
  {
    RunInv(size, before);
    EndsCount(Execs(Init(size), before), between);
  }

  /** An empty ring on which a put and a poll come between the two loads. */
  lemma {:induction false} LenWraps() returns (between: seq<Event>)
    ensures var s := Init(2); var s' := Execs(s, between); s.queue == 0 && s'.dequeue == 1
  {
    var s0 := Init(2);
    InitInv(2);
    SoloOffer(s0, 0, 7);
    between := SoloIsARun(s0, [], CallPut(0, 7, true), 5);
    var s1 := Execs(s0, between);
    EndsCount(s0, between);
    OfferCourse(s0, 0, 7);
    assert Quiescent(s1);
    SoloPoll(s1, 0);
    between := SoloIsARun(s0, between, CallPoll(0, false), 6);
  }

  // ----- the smallest ring

  ghost predicate NeverOverfull(size: nat)
    requires size > 0
  {
    forall es: seq<Event> :: var s := Execs(Init(size), es); s.queue <= s.dequeue + size
  }

  /** With a single slot "filled for ticket k" and "free for ticket k + 1" are the same
      position, so a second Offer overwrites the first: the bound holds from size 2 on only. */
  lemma {:induction false} NeverOverfullIff(size: nat)
    requires size > 0
    ensures NeverOverfull(size) <==> size >= 2
  {
    if size >= 2 {
      forall es: seq<Event>
        ensures var s := Execs(Init(size), es); s.queue <= s.dequeue + size
      {
        RingSafety(size, es);
      }
    } else {
      var es := SingleSlotRun();
      assert Execs(Init(size), es).queue == 2;
    }
  }

  lemma {:induction false} SingleSlotRun() returns (es: seq<Event>)
    ensures var s := Execs(Init(1), es);
            && s.queue == 2 && s.dequeue == 0 && s.claimed == [7, 8]
            && s.slots == [Slot(2, Some(8))] && s.delivered == map[]
  {
    var s0 := Init(1);
    OfferCourse(s0, 0, 7);
    var s1 := Solo(Exec(s0, CallPut(0, 7, true)), 0, 5);
    OfferCourse(s1, 0, 8);
    es := SoloIsARun(s0, [], CallPut(0, 7, true), 5);
    es := SoloIsARun(s0, es, CallPut(0, 8, true), 5);
  }

  lemma {:induction false} ExecsNext(s: Ring, es: seq<Event>, e: Event)
    requires |s.slots| > 0
    ensures Execs(s, es + [e]) == Exec(Execs(s, es), e)
  {
    assert (es + [e])[..|es|] == es;
  }

  /** A call followed by undisturbed steps of its thread is a run like any other. */
  lemma {:induction false} SoloIsARun(s: Ring, es: seq<Event>, call: Event, steps: nat) returns (es': seq<Event>)
    requires |s.slots| > 0 && !call.Dispose?
    ensures |Exec(Execs(s, es), call).slots| > 0
    ensures Execs(s, es') == Solo(Exec(Execs(s, es), call), call.thread, steps)
    decreases steps
  {
    ExecKeepsSize(Execs(s, es), call);
    if steps == 0 {
      es' := es + [call];
      ExecsNext(s, es, call);
    } else {
      var p := SoloIsARun(s, es, call, steps - 1);
      es' := p + [Run(call.thread)];
      ExecsNext(s, p, Run(call.thread));
    }
  }
}

/** The buffer as a single caller sees it: `init`, `Offer`, `Poll`, `Len` and `Dispose`. */
module RingBuffers {
  import opened RingProtocol
  import opened RingSize

  lemma {:induction false} MaskIsIndex(pos: nat, size: nat)
    requires IsPow2(size)
    ensures And(pos, size - 1) == Index(pos, size)
  {
    AndIsMod(pos, size);
    IndexIsMod(pos, size);
  }

  class RingBuffer {
    var queue: nat
    var dequeue: nat
    var disposed: bool
    const mask: nat
    const nodes: array<Slot>

    ghost var ring: Ring  // the state of the protocol, with no call running
    ghost var events: seq<Event>  // the run that led to it

    /** The fields are those of the ring `s`. */
    ghost predicate Mirrors(s: Ring)
      reads this, nodes
    {
      && nodes.Length > 0 && IsPow2(nodes.Length) && mask == nodes.Length - 1
      && s.queue == queue && s.dequeue == dequeue && s.disposed == disposed && s.slots == nodes[..]
    }

    ghost predicate Valid()
      reads this, nodes
    {
      Mirrors(ring) && ring == Execs(Init(nodes.Length), events) && Quiescent(ring)
    }

    /** The queued items, oldest first. */
    ghost function Held(): seq<Item>
      requires Valid() && nodes.Length >= 2
      reads this, nodes
    {
      RunInv(nodes.Length, events);
      ring.Contents()
    }

    /** The size is rounded up; a size that rounds up to 0 gives a ring on which every call panics. */
    constructor (size: nat)
      requires size < WORD
      ensures nodes.Length == Rounded(size) && fresh(nodes)
      ensures 0 < size <= 0x8000_0000_0000_0000 ==> Valid() && nodes.Length >= size && ring == Init(nodes.Length)
    {
      var n := RingSize.RoundUp(size);
      RoundedMeaning(size);
      queue, dequeue, disposed := 0, 0, false;
      nodes := new Slot[n](i requires i >= 0 => Slot(i, None));
      mask := if n == 0 then WORD - 1 else n - 1;
      ring, events := Init(n), [];
      new;
      assert ring.slots == nodes[..];
    }

    /** An undisturbed Offer of the protocol, for every size.  On two slots or more the item is queued
        unless the ring is disposed or full. */
    method Offer(item: Item) returns (ok: bool)
      requires Valid()
      modifies this, nodes
      ensures Valid() && Undisturbed(old(ring), CallPut(0, item, true), ring)
      ensures queue == if ok then old(queue) + 1 else old(queue)
      ensures nodes.Length >= 2 ==>
                && (ok <==> !old(disposed) && |old(Held())| < nodes.Length)
                && Held() == if ok then old(Held()) + [item] else old(Held())
    {
      ghost var es := OfferSpec(nodes.Length, events, item);
      ghost var r := Execs(Init(nodes.Length), es);
      ok := TryPut(item, ring, r);
      ring, events := r, es;
    }

    /** The loads and stores of a put that gives up instead of trying again. */
    method TryPut(item: Item, ghost s: Ring, ghost r: Ring) returns (ok: bool)
      requires Mirrors(s) && OfferEffect(s, item, r)
      modifies this`queue, nodes
      ensures Mirrors(r) && (ok <==> r.queue > s.queue)
    {
      var pos := queue;
      if disposed {
        return false;
      }
      var n := And(pos, mask);
      MaskIsIndex(pos, nodes.Length);
      if nodes[n].position != pos {
        return false;
      }
      queue := pos + 1;
      nodes[n] := Slot(nodes[n].position, Some(item));
      nodes[n] := Slot(pos + 1, nodes[n].data);
      return true;
    }

    /** An undisturbed Poll of the protocol, for every size.  On two slots or more the oldest item
        leaves unless the ring is disposed or empty. */
    method Poll() returns (got: Option<Item>)
      requires Valid()
      modifies this, nodes
      ensures Valid() && Undisturbed(old(ring), CallPoll(0, false), ring)
      ensures nodes.Length >= 2 ==>
                && got == (if old(disposed) || old(Held()) == [] then None else Some(old(Held())[0]))
                && Held() == if got.Some? then old(Held())[1..] else old(Held())
    {
      ghost var es := PollSpec(nodes.Length, events);
      ghost var r := Execs(Init(nodes.Length), es);
      got := TryTake(ring, r);
      ring, events := r, es;
    }

    /** The loads and stores of a poll that gives up instead of trying again. */
    method TryTake(ghost s: Ring, ghost r: Ring) returns (got: Option<Item>)
      requires Mirrors(s) && PollEffect(s, r)
      modifies this`dequeue, nodes
      ensures Mirrors(r) && got == if r.dequeue > s.dequeue then s.SlotOf(s.dequeue).data else None
    {
      var pos := dequeue;
      if disposed {
        return None;
      }
      var n := And(pos, mask);
      MaskIsIndex(pos, nodes.Length);
      if nodes[n].position != pos + 1 {
        return None;
      }
      dequeue := pos + 1;
      got := nodes[n].data;
      nodes[n] := Slot(nodes[n].position, None);
      nodes[n] := Slot(pos + mask + 1, nodes[n].data);
      return got;
    }

    method Len() returns (n: nat)
      requires Valid() && nodes.Length >= 2
      ensures n == |Held()|
    {
      RunInv(nodes.Length, events);
      n := queue - dequeue;
    }

    method Dispose()
      requires Valid()
      modifies this
      ensures Valid() && disposed && ring == old(ring).(disposed := true)
    {
      ghost var es := events + [RingProtocol.Dispose];
      assert es[..|events|] == events;
      ring, events := Execs(Init(nodes.Length), es), es;
      disposed := true;
    }
  }

  /** What an Offer by one caller leaves of the protocol. */
  function Offered(s: Ring, item: Item): Ring
    requires |s.slots| > 0
  {
    var pos := s.queue;
    if s.disposed || s.SlotOf(pos).position != pos then s.At(0, Idle)
    else s.Claim(0, item, pos).StoreData(0, item, pos).Publish(0, pos)
  }

  /** The fields of the ring before and after an Offer by one caller. */
  ghost predicate OfferEffect(s: Ring, item: Item, r: Ring)
    requires |s.slots| > 0
  {
    var pos := s.queue;
    var wins := !s.disposed && s.SlotOf(pos).position == pos;
    && Quiescent(r) && r.dequeue == s.dequeue && r.disposed == s.disposed
    && r.queue == (if wins then pos + 1 else pos)
    && r.slots == (if wins then s.Stored(pos, Slot(pos + 1, Some(item))) else s.slots)
    && r.claimed == (if wins then s.claimed + [item] else s.claimed)
  }

  lemma {:induction false} OfferedFields(s: Ring, item: Item)
    requires |s.slots| > 0 && Quiescent(s)
    ensures OfferEffect(s, item, Offered(s, item))
  {
    var pos := s.queue;
    if !s.disposed && s.SlotOf(pos).position == pos {
      var b := s.Claim(0, item, pos).StoreData(0, item, pos);
      assert b.slots == s.Stored(pos, Slot(pos, Some(item)));
    }
  }

  lemma {:induction false} OfferRuns(s: Ring, item: Item) returns (r: Ring)
    requires |s.slots| > 0 && Quiescent(s)
    ensures Undisturbed(s, CallPut(0, item, true), r) && OfferEffect(s, item, r)
  {
    var call := CallPut(0, item, true);
    r := Offered(s, item);
    OfferedFields(s, item);
    if s.disposed {
      DisposedCourse(s, call);
      assert r == Solo(Exec(s, call), 0, 1);
    } else {
      OfferCourse(s, 0, item);
      assert r == Solo(Exec(s, call), 0, 5);
    }
  }

  /** A call that met no interference is part of a run. */
  lemma {:induction false} UndisturbedRun(size: nat, es: seq<Event>, call: Event, r: Ring) returns (es': seq<Event>)
    requires size > 0 && Undisturbed(Execs(Init(size), es), call, r)
    ensures Execs(Init(size), es') == r
  {
    var steps: nat :| r == Solo(Exec(Execs(Init(size), es), call), call.thread, steps);
    es' := SoloIsARun(Init(size), es, call, steps);
  }

  lemma {:induction false} OfferHolds(s: Ring, item: Item, r: Ring)
    requires Inv(s) && Quiescent(s) && OfferEffect(s, item, r)
    ensures r.dequeue <= r.queue == |r.claimed|
    ensures r.queue > s.queue <==> !s.disposed && |s.Contents()| < |s.slots|
    ensures r.Contents() == if r.queue > s.queue then s.Contents() + [item] else s.Contents()
  {
    RoomIsAFreeSlot(s);
  }

  lemma {:induction false} OfferSpec(size: nat, es: seq<Event>, item: Item) returns (es': seq<Event>)
    requires size > 0 && Quiescent(Execs(Init(size), es))
    ensures var s, r := Execs(Init(size), es), Execs(Init(size), es');
            && Undisturbed(s, CallPut(0, item, true), r) && OfferEffect(s, item, r)
            && (size >= 2 ==>
                  && s.dequeue <= s.queue == |s.claimed| && r.dequeue <= r.queue == |r.claimed|
                  && (r.queue > s.queue <==> !s.disposed && |s.Contents()| < size)
                  && r.Contents() == if r.queue > s.queue then s.Contents() + [item] else s.Contents())
  {
    var s := Execs(Init(size), es);
    var r := OfferRuns(s, item);
    es' := UndisturbedRun(size, es, CallPut(0, item, true), r);
    if size >= 2 {
      RunInv(size, es);
      OfferHolds(s, item, r);
    }
  }

  /** What a Poll by one caller leaves of the protocol. */
  function Polled(s: Ring): Ring
    requires |s.slots| > 0
  {
    var pos := s.dequeue;
    if s.disposed || s.SlotOf(pos).position != pos + 1 then s.At(0, Idle)
    else
      var got := s.SlotOf(pos).data;
      s.Take(0, pos).At(0, Poll(PollClearData(pos, got))).ClearData(0, pos, got).Release(0, pos, got)
  }

  /** The fields of the ring before and after a Poll by one caller. */
  ghost predicate PollEffect(s: Ring, r: Ring)
    requires |s.slots| > 0
  {
    var pos := s.dequeue;
    var wins := !s.disposed && s.SlotOf(pos).position == pos + 1;
    && Quiescent(r) && r.queue == s.queue && r.disposed == s.disposed && r.claimed == s.claimed
    && r.dequeue == (if wins then pos + 1 else pos)
    && r.slots == (if wins then s.Stored(pos, Slot(pos + |s.slots|, None)) else s.slots)
  }

  lemma {:induction false} PolledFields(s: Ring)
    requires |s.slots| > 0 && Quiescent(s)
    ensures PollEffect(s, Polled(s))
  {
    var pos := s.dequeue;
    if !s.disposed && s.SlotOf(pos).position == pos + 1 {
      var got := s.SlotOf(pos).data;
      var b := s.Take(0, pos).At(0, Poll(PollClearData(pos, got))).ClearData(0, pos, got);
      assert b.slots == s.Stored(pos, Slot(pos + 1, None));
    }
  }

  lemma {:induction false} PollRuns(s: Ring) returns (r: Ring)
    requires |s.slots| > 0 && Quiescent(s)
    ensures Undisturbed(s, CallPoll(0, false), r) && PollEffect(s, r)
  {
    var call := CallPoll(0, false);
    r := Polled(s);
    PolledFields(s);
    if s.disposed {
      DisposedCourse(s, call);
      assert r == Solo(Exec(s, call), 0, 1);
    } else {
      PollCourse(s, 0);
      assert r == Solo(Exec(s, call), 0, 6);
    }
  }

  lemma {:induction false} PollHolds(s: Ring, r: Ring)
    requires Inv(s) && Quiescent(s) && PollEffect(s, r)
    ensures r.dequeue <= r.queue == |r.claimed|
    ensures r.dequeue > s.dequeue <==> !s.disposed && s.Contents() != []
    ensures r.dequeue > s.dequeue ==> s.SlotOf(s.dequeue).data == Some(s.Contents()[0])
    ensures r.Contents() == if r.dequeue > s.dequeue then s.Contents()[1..] else s.Contents()
  {
    FilledIsHeld(s);
  }

  lemma {:induction false} PollSpec(size: nat, es: seq<Event>) returns (es': seq<Event>)
    requires size > 0 && Quiescent(Execs(Init(size), es))
    ensures var s, r := Execs(Init(size), es), Execs(Init(size), es');
            && Undisturbed(s, CallPoll(0, false), r) && PollEffect(s, r)
            && (size >= 2 ==>
                  && s.dequeue <= s.queue == |s.claimed| && r.dequeue <= r.queue == |r.claimed|
                  && (r.dequeue > s.dequeue <==> !s.disposed && s.Contents() != [])
                  && (r.dequeue > s.dequeue ==> s.SlotOf(s.dequeue).data == Some(s.Contents()[0]))
                  && r.Contents() == if r.dequeue > s.dequeue then s.Contents()[1..] else s.Contents())
  {
    var s := Execs(Init(size), es);
    var r := PollRuns(s);
    es' := UndisturbedRun(size, es, CallPoll(0, false), r);
    if size >= 2 {
      RunInv(size, es);
      PollHolds(s, r);
    }
  }
}
