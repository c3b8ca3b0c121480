/** The OTA event ring: a six-slot drop-oldest FIFO shared by producers and one flusher. */
module RingModel {
  import opened Common

  const RING_SIZE: nat := 6
  const MAX_ATTEMPTS: nat := 20
  const STATE_LEN: nat := 20
  const VERSION_LEN: nat := 24
  const DETAIL_LEN: nat := 112

  datatype Event = Event(state: string, version: string, detail: string)

  const BLANK: Event := Event("", "", "")

  datatype Ring = Ring(slots: seq<Event>, head: nat, count: nat, attempts: u8)

  predicate Valid(r: Ring) {
    |r.slots| == RING_SIZE && r.head < RING_SIZE && r.count <= RING_SIZE
  }

  /** Slot of the i-th oldest of `count` events when `head` is the next write slot. */
  function SlotOf(head: nat, count: nat, i: nat): (k: nat)
    requires head < RING_SIZE && count <= RING_SIZE
    ensures k < RING_SIZE
  {
    (head + RING_SIZE - count + i) % RING_SIZE
  }

  function ReadIdx(r: Ring): nat
    requires Valid(r)
  {
    SlotOf(r.head, r.count, 0)
  }

  /** The queue the ring stands for, oldest first. */
  function Pending(r: Ring): (q: seq<Event>)
    requires Valid(r)
    ensures |q| == r.count
  {
    seq(r.count, i requires 0 <= i < r.count => r.slots[SlotOf(r.head, r.count, i)])
  }

  // ---- The critical sections -----------------------------------------------------------------

  function Put(r: Ring, ev: Event): (r': Ring)
    requires Valid(r)
    ensures Valid(r')
  {
    var r' := r.(slots := r.slots[r.head := ev], head := (r.head + 1) % RING_SIZE);
    if r.count < RING_SIZE then r'.(count := r.count + 1) else r'.(attempts := 0)
  }

  function Take(r: Ring): (r': Ring)
    requires Valid(r)
    ensures Valid(r')
  {
    if r.count == 0 then r.(attempts := 0)
    else
      r.(slots := r.slots[ReadIdx(r) := BLANK], count := r.count - 1,
         head := if r.count == 1 then 0 else r.head, attempts := 0)
  }

  /** The queue order moves up one slot per write. */
  lemma SlotAfterPut(head: nat, count: nat, i: nat)
    requires head < RING_SIZE && count <= RING_SIZE
    requires i <= if count < RING_SIZE then count else RING_SIZE - 1
    ensures var count' := if count < RING_SIZE then count + 1 else count;
            var k := if count < RING_SIZE then i else i + 1;
            var at := SlotOf((head + 1) % RING_SIZE, count', i);
            at == SlotOf(head, count, k) && (at == head <==> k == count)
  {
  }

  lemma SlotAfterTake(head: nat, count: nat, i: nat)
    requires head < RING_SIZE && 0 < count <= RING_SIZE && i < count - 1
    ensures SlotOf(head, count - 1, i) == SlotOf(head, count, i + 1) != SlotOf(head, count, 0)
  {
  }

  lemma PutIsDropOldest(r: Ring, ev: Event)
    requires Valid(r)
    ensures Pending(Put(r, ev)) == (if r.count < 6 then Pending(r) else Pending(r)[1..]) + [ev]
  {
    var q, q' := Pending(r), Pending(Put(r, ev));
    var kept := if r.count < RING_SIZE then q else q[1..];
    forall i | 0 <= i < |q'|
      ensures q'[i] == (kept + [ev])[i]
    {
      SlotAfterPut(r.head, r.count, i);
    }
  }

  lemma TakeIsPop(r: Ring)
    requires Valid(r)
    ensures Pending(Take(r)) == if r.count == 0 then [] else Pending(r)[1..]
  {
    if r.count > 1 {
      var q, q' := Pending(r), Pending(Take(r));
      forall i | 0 <= i < |q'|
        ensures q'[i] == q[1..][i]
      {
        SlotAfterTake(r.head, r.count, i);
      }
    }
  }

  /** Slots without a pending event are blank: nothing of a delivered event is kept. */
  predicate Clean(r: Ring)
    requires Valid(r)
  {
    forall i | r.count <= i < 6 :: r.slots[SlotOf(r.head, r.count, i)] == Event("", "", "")
  }

  lemma FreeSlotAfterPut(head: nat, count: nat, i: nat)
    requires head < RING_SIZE && count < RING_SIZE && count < i < RING_SIZE
    ensures SlotOf((head + 1) % RING_SIZE, count + 1, i) == SlotOf(head, count, i) != head
  {
  }

  lemma FreeSlotAfterTake(head: nat, count: nat, i: nat)
    requires head < RING_SIZE && 0 < count <= RING_SIZE && count <= i < RING_SIZE
    ensures SlotOf(head, count - 1, i - 1) == SlotOf(head, count, i) != SlotOf(head, count, 0)
  {
  }

  lemma FreedSlot(head: nat, count: nat)
    requires head < RING_SIZE && 0 < count <= RING_SIZE
    ensures SlotOf(head, count - 1, 5) == SlotOf(head, count, 0)
  {
  }

  lemma PutStaysClean(r: Ring, ev: Event)
    requires Valid(r) && Clean(r)
    ensures Clean(Put(r, ev))
  {
    var r' := Put(r, ev);
    forall i | r'.count <= i < 6
      ensures r'.slots[SlotOf(r'.head, r'.count, i)] == Event("", "", "")
    {
      FreeSlotAfterPut(r.head, r.count, i);
    }
  }

  /** Every slot is reached from the read position. */
  lemma SlotReached(head: nat, count: nat, k: nat)
    requires head < RING_SIZE && count <= RING_SIZE && k < RING_SIZE
    ensures SlotOf(head, count, (k + count + 6 - head) % 6) == k
  {
  }

  /** The next event starts with no attempts counted, and the last one out leaves the ring as it was at boot. */
  lemma TakeStaysClean(r: Ring)
    requires Valid(r) && Clean(r)
    ensures Clean(Take(r)) && Take(r).attempts == 0
    ensures r.count == 1 ==> Take(r) == Ring(seq(6, _ => Event("", "", "")), 0, 0, 0)
  {
    var r' := Take(r);
    if r.count == 1 {
      forall k | 0 <= k < 6
        ensures r'.slots[k] == Event("", "", "")
      {
        SlotReached(r.head, 1, k);
        var i := (k + 1 + 6 - r.head) % 6;
        assert i >= 1 ==> r.slots[SlotOf(r.head, 1, i)] == Event("", "", "");
      }
    } else if r.count > 1 {
      forall i | r'.count <= i < 6
        ensures r'.slots[SlotOf(r'.head, r'.count, i)] == Event("", "", "")
      {
        if i == 5 {
          FreedSlot(r.head, r.count);
        } else {
          FreeSlotAfterTake(r.head, r.count, i + 1);
        }
      }
    }
  }

  // ---- One reporter, uninterrupted ------------------------------------------------------------

  /** How the signed POST of one event ended. */
  datatype Post = NotSent | Failed | Answered(accepted: bool)

  datatype Reporter = Reporter(enabled: bool, ring: Ring, lastFlush: u32, fails: u8)

  function Bump(x: u8): u8 {
    (x + 1) % 256
  }

  function ClipTo(s: string, size: nat): string
    requires size > 0
  {
    if |s| < size then s else s[..size - 1]
  }

  function MakeEvent(state: string, version: Option<string>, detail: Option<string>): Event {
    Event(ClipTo(state, STATE_LEN),
          if version.Some? then ClipTo(version.value, VERSION_LEN) else "",
          if detail.Some? then ClipTo(detail.value, DETAIL_LEN) else "")
  }

  /** `state` is None for a null pointer. */
  function Report(p: Reporter, state: Option<string>, version: Option<string>, detail: Option<string>): Reporter
    requires Valid(p.ring)
  {
    if !p.enabled || state.None? || state.value == "" then p
    else p.(ring := Put(p.ring, MakeEvent(state.value, version, detail)))
  }

  function Settle(r: Ring, post: Post): (r': Ring)
    requires Valid(r)
    ensures Valid(r')
  {
    match post
    case NotSent => r
    case Failed => if r.attempts >= MAX_ATTEMPTS then Take(r) else r
    case Answered(_) => Take(r)
  }

  function Flush(p: Reporter, post: Post): (Reporter, bool)
    requires Valid(p.ring)
  {
    if p.ring.count == 0 then (p, true)
    else
      var r := p.ring.(attempts := Bump(p.ring.attempts));
      (p.(ring := Settle(r, post), fails := if post.Answered? then 0 else Bump(p.fails)), post.Answered?)
  }

  /** 5 s, then 15 s after two failures in a row, then 45 s after four. */
  function Cadence(fails: u8): nat {
    if fails >= 4 then 45000 else if fails >= 2 then 15000 else 5000
  }

  /** `online`: the link is up and the clock is set. */
  function TickEffect(p: Reporter, online: bool, now: u32, post: Post): Reporter
    requires Valid(p.ring)
  {
    if !p.enabled || !online then p
    else if p.ring.count == 0 then p.(fails := 0)
    else if Elapsed(now, p.lastFlush) < Cadence(p.fails) then p
    else Flush(p.(lastFlush := now), post).0
  }
}

/** The reporter as the firmware runs it. */
module EventRing {
  import opened Common
  import opened RingModel

  class GasOtaReporter {
    const ring: array<Event>
    var enabled: bool
    var head: nat
    var count: nat
    var attempts: u8
    var lastFlushMs: u32
    var flushFails: u8

    ghost predicate Valid()
      reads this
    {
      ring.Length == RING_SIZE && head < RING_SIZE && count <= RING_SIZE
    }

    ghost function Buffer(): (r: Ring)
      reads this, ring
      requires Valid()
      ensures RingModel.Valid(r)
    {
      Ring(ring[..], head, count, attempts)
    }

    ghost function View(): Reporter
      reads this, ring
      requires Valid()
    {
      Reporter(enabled, Buffer(), lastFlushMs, flushFails)
    }

    constructor (enabled: bool)
      ensures Valid() && fresh(ring)
      ensures View() == Reporter(enabled, Ring(seq(RING_SIZE, _ => BLANK), 0, 0, 0), 0, 0)
    {
      ring := new Event[RING_SIZE](_ => BLANK);
      this.enabled := enabled;
      head, count, attempts, lastFlushMs, flushFails := 0, 0, 0, 0, 0;
      new;
      assert ring[..] == seq(RING_SIZE, _ => BLANK);
    }

    method Post(ev: Event) returns (droppedOldest: bool)
      requires Valid()
      modifies this`head, this`count, this`attempts, ring
      ensures Valid() && Buffer() == Put(old(Buffer()), ev)
      ensures droppedOldest <==> old(count) == RING_SIZE
    {
      droppedOldest := false;
      if count < RING_SIZE {
        ring[head] := ev;
        head := (head + 1) % RING_SIZE;
        count := count + 1;
      } else {
        var oldest := head;
        ring[oldest] := ev;
        head := (head + 1) % RING_SIZE;
        droppedOldest := true;
        attempts := 0;
      }
    }

    method Report(state: Option<string>, version: Option<string>, detail: Option<string>)
      requires Valid()
      modifies this`head, this`count, this`attempts, ring
      ensures Valid() && View() == RingModel.Report(old(View()), state, version, detail)
    {
      if !enabled || state.None? || |state.value| == 0 {
        return;
      }
      var dropped := Post(MakeEvent(state.value, version, detail));
    }

    method TakeHead()
      requires Valid()
      modifies this`head, this`count, this`attempts, ring
      ensures Valid() && Buffer() == Take(old(Buffer()))
    {
      if count > 0 {
        var dropIdx := (head + RING_SIZE - count) % RING_SIZE;
        ring[dropIdx] := BLANK;
        count := count - 1;
        if count == 0 {
          head := 0;
        }
      }
      attempts := 0;
    }

    /** `post` is the outcome of the POST, which runs with no lock held. */
    method FlushOne(post: Post) returns (ok: bool, sent: Option<Event>)
      requires Valid()
      modifies this, ring
      ensures Valid() && (View(), ok) == Flush(old(View()), post)
      ensures sent == if old(count) == 0 then None else Some(Pending(old(Buffer()))[0])
    {
      if count == 0 {
        return true, None;
      }
      var readIdx := (head + RING_SIZE - count) % RING_SIZE;
      sent := Some(ring[readIdx]);
      attempts := Bump(attempts);
      if post.NotSent? {
        flushFails := Bump(flushFails);
        return false, sent;
      }
      if post.Failed? {
        flushFails := Bump(flushFails);
        if attempts >= MAX_ATTEMPTS {
          TakeHead();
        }
        return false, sent;
      }
      TakeHead();
      flushFails := 0;
      return true, sent;
    }

    method Tick(online: bool, now: u32, post: Post)
      requires Valid()
      modifies this, ring
      ensures Valid() && View() == TickEffect(old(View()), online, now, post)
    {
      if !enabled {
        return;
      }
      if !online {
        return;
      }
      if count == 0 {
        flushFails := 0;
        return;
      }
      var interval := 5000;
      if flushFails >= 4 {
        interval := 45000;
      } else if flushFails >= 2 {
        interval := 15000;
      }
      if Elapsed(now, lastFlushMs) < interval {
        return;
      }
      lastFlushMs := now;
      var ok, sent := FlushOne(post);
    }
  }
}

/** Producers and the flusher interleaved between critical sections. */
module RingInterleaving {
  import opened Common
  import opened RingModel

  datatype Fate = Overwritten | Consumed | Dropped

  /**
   * Where the flusher stands. `place` is the position, among all events ever
   * reported, of the event it peeked at; `mine` is its local copy.
   */
  datatype Pc =
    | Idle
    | Peeked(place: nat, mine: Event)
    | Loaded(place: nat, mine: Event, seen: u8)
    | Posting(place: nat, mine: Event)
    | Dropping(place: nat, mine: Event)

  datatype System = System(r: Ring, pc: Pc, reported: seq<Event>, removed: seq<(Event, Fate)>)

  /** The unlocked `_attempts++` is a load and a store; everything else is one critical section. */
  datatype Action = Produce(ev: Event) | Peek | Load | Store | Finish(post: Post) | Drop

  function Remove(s: System, fate: Fate): System
    requires Valid(s.r)
  {
    s.(r := Take(s.r), pc := Idle,
       removed := if s.r.count == 0 then s.removed else s.removed + [(Pending(s.r)[0], fate)])
  }

  function Step(s: System, a: Action): (s': System)
    requires Valid(s.r)
    ensures Valid(s'.r)
  {
    match a
    case Produce(ev) =>
      s.(r := Put(s.r, ev), reported := s.reported + [ev],
         removed := if s.r.count < RING_SIZE then s.removed else s.removed + [(Pending(s.r)[0], Overwritten)])
    case Peek =>
      if s.pc.Idle? && s.r.count > 0 then s.(pc := Peeked(|s.removed|, Pending(s.r)[0])) else s
    case Load => if s.pc.Peeked? then s.(pc := Loaded(s.pc.place, s.pc.mine, s.r.attempts)) else s
    case Store =>
      if s.pc.Loaded? then s.(r := s.r.(attempts := Bump(s.pc.seen)), pc := Posting(s.pc.place, s.pc.mine))
      else s
    case Finish(post) =>
      if !s.pc.Posting? then s
      else
        (match post
         case NotSent => s.(pc := Idle)
         case Failed => s.(pc := if s.r.attempts >= MAX_ATTEMPTS then Dropping(s.pc.place, s.pc.mine) else Idle)
         case Answered(_) => Remove(s, Consumed))
    case Drop => if s.pc.Dropping? then Remove(s, Dropped) else s
  }

  function Run(s: System, acts: seq<Action>): (s': System)
    requires Valid(s.r)
    ensures Valid(s'.r)
    decreases acts
  {
    if acts == [] then s else Run(Step(s, acts[0]), acts[1..])
  }

  function Events(removed: seq<(Event, Fate)>): seq<Event> {
    seq(|removed|, i requires 0 <= i < |removed| => removed[i].0)
  }

  /**
   * The ring is a FIFO of what was reported, and since the flusher peeked only
   * overwriting has removed anything.
   */
  predicate Fifo(s: System)
    requires Valid(s.r)
  {
    && s.reported == Events(s.removed) + Pending(s.r)
    && (!s.pc.Idle? ==>
          && s.r.count > 0
          && s.pc.place <= |s.removed|
          && s.reported[s.pc.place] == s.pc.mine
          && forall k | s.pc.place <= k < |s.removed| :: s.removed[k].1 == Overwritten)
  }

  lemma EventsSnoc(removed: seq<(Event, Fate)>, e: Event, f: Fate)
    ensures Events(removed + [(e, f)]) == Events(removed) + [e]
  {
  }

  lemma ProduceKeepsFifo(s: System, ev: Event)
    requires Valid(s.r) && Fifo(s)
    ensures Fifo(Step(s, Produce(ev)))
  {
    PutIsDropOldest(s.r, ev);
    var q := Pending(s.r);
    if s.r.count == RING_SIZE {
      EventsSnoc(s.removed, q[0], Overwritten);
      assert (Events(s.removed) + [q[0]]) + (q[1..] + [ev]) == (Events(s.removed) + q) + [ev];
    } else {
      assert Events(s.removed) + (q + [ev]) == (Events(s.removed) + q) + [ev];
    }
  }

  lemma RemoveKeepsFifo(s: System, fate: Fate)
    requires Valid(s.r) && Fifo(s)
    ensures Fifo(Remove(s, fate))
  {
    TakeIsPop(s.r);
    var q := Pending(s.r);
    if s.r.count > 0 {
      EventsSnoc(s.removed, q[0], fate);
      assert (Events(s.removed) + [q[0]]) + q[1..] == Events(s.removed) + q;
    }
  }

  lemma StepKeepsFifo(s: System, a: Action)
    requires Valid(s.r) && Fifo(s)
    ensures Fifo(Step(s, a))
  {
    match a
    case Produce(ev) => ProduceKeepsFifo(s, ev);
    case Peek =>
    case Load =>
    case Store =>
      assert Pending(Step(s, a).r) == Pending(s.r);
    case Finish(post) =>
      if s.pc.Posting? && post.Answered? {
        RemoveKeepsFifo(s, Consumed);
      }
    case Drop =>
      if s.pc.Dropping? {
        RemoveKeepsFifo(s, Dropped);
      }
  }

  function Start(): System {
    System(Ring(seq(RING_SIZE, _ => BLANK), 0, 0, 0), Idle, [], [])
  }

  lemma {:induction false} RunKeepsFifo(s: System, acts: seq<Action>)
    requires Valid(s.r) && Fifo(s)
    ensures Fifo(Run(s, acts))
    decreases acts
  {
    if acts != [] {
      StepKeepsFifo(s, acts[0]);
      RunKeepsFifo(Step(s, acts[0]), acts[1..]);
    }
  }

  function CountOf(removed: seq<(Event, Fate)>, f: Fate): nat {
    if removed == [] then 0
    else Flag(removed[0].1 == f) + CountOf(removed[1..], f)
  }

  lemma {:induction false} FatesPartition(removed: seq<(Event, Fate)>)
    ensures |removed| == CountOf(removed, Consumed) + CountOf(removed, Dropped) + CountOf(removed, Overwritten)
  {
    if removed != [] {
      FatesPartition(removed[1..]);
    }
  }

  /**
   * In every interleaving the events leave in the order they were reported, each
   * once: consumed, dropped for its attempts, or overwritten; the rest are pending.
   */
  lemma NothingLostOrReordered(acts: seq<Action>)
    ensures var s := Run(Start(), acts);
            && s.reported == Events(s.removed) + Pending(s.r)
            && |s.reported| == |Pending(s.r)| + CountOf(s.removed, Consumed) + CountOf(s.removed, Dropped)
                               + CountOf(s.removed, Overwritten)
  {
    RunKeepsFifo(Start(), acts);
    FatesPartition(Run(Start(), acts).removed);
  }

  /** The flusher does not come to rest on the way. */
  predicate Busy(s: System, acts: seq<Action>)
    requires Valid(s.r)
    decreases acts
  {
    !s.pc.Idle? && (acts == [] || Busy(Step(s, acts[0]), acts[1..]))
  }

  function Reports(acts: seq<Action>): nat {
    if acts == [] then 0 else Flag(acts[0].Produce?) + Reports(acts[1..])
  }

  /** Events overwritten when `n` more arrive on top of `count`. */
  function Overflow(count: nat, n: nat): nat {
    if count + n <= RING_SIZE then 0 else count + n - RING_SIZE
  }

  lemma BusyStep(s: System, a: Action)
    requires Valid(s.r) && !s.pc.Idle? && !Step(s, a).pc.Idle?
    ensures var s', n := Step(s, a), Flag(a.Produce?);
            && s'.r.count == s.r.count + n - Overflow(s.r.count, n)
            && |s'.removed| == |s.removed| + Overflow(s.r.count, n)
            && s'.pc.place == s.pc.place && s'.pc.mine == s.pc.mine
  {
  }

  lemma {:induction false} BusyRun(s: System, acts: seq<Action>)
    requires Valid(s.r) && Busy(s, acts)
    ensures var r := Run(s, acts);
            && |r.removed| == |s.removed| + Overflow(s.r.count, Reports(acts))
            && !r.pc.Idle? && r.pc.place == s.pc.place && r.pc.mine == s.pc.mine
    decreases acts
  {
    if acts != [] {
      BusyStep(s, acts[0]);
      BusyRun(Step(s, acts[0]), acts[1..]);
    }
  }

  lemma RemovesOldest(s: System, fate: Fate)
    requires Valid(s.r) && Fifo(s) && s.r.count > 0
    ensures |s.removed| < |s.reported| && Remove(s, fate).removed == s.removed + [(s.reported[|s.removed|], fate)]
  {
    assert s.reported[|s.removed|] == Pending(s.r)[0];
  }

  /**
   * The POST is made of a copy and its answer removes whatever is oldest by then. From the
   * peek to the answer, or to the drop after too many attempts: the event removed lies as
   * many places behind the one posted as reports have overflowed the ring in between, so
   * it is the one posted exactly if no more reports came in than there was room for.
   */
  lemma ConsumedIsPostedIff(s: System, acts: seq<Action>, accepted: bool)
    requires Valid(s.r) && Fifo(s) && s.pc.Idle? && s.r.count > 0 && Busy(Step(s, Peek), acts)
    ensures var r := Run(Step(s, Peek), acts);
            var s' := if r.pc.Dropping? then Step(r, Drop) else Step(r, Finish(Answered(accepted)));
            r.pc.Posting? || r.pc.Dropping? ==>
              && |s'.removed| == r.pc.place + Overflow(s.r.count, Reports(acts)) + 1
              && |s'.removed| <= |r.reported|
              && s'.removed[|s'.removed| - 1].0 == r.reported[|s'.removed| - 1]
              && (|s'.removed| - 1 == r.pc.place <==> Reports(acts) <= RING_SIZE - s.r.count)
              && r.reported[r.pc.place] == r.pc.mine == Pending(s.r)[0]
  {
    var p := Step(s, Peek);
    StepKeepsFifo(s, Peek);
    RunKeepsFifo(p, acts);
    BusyRun(p, acts);
    var r := Run(p, acts);
    RemovesOldest(r, Consumed);
    RemovesOldest(r, Dropped);
  }

  /** With the ring full, one report during a POST makes the answer consume an event that was never sent. */
  lemma OverflowConsumesUnsent(s: System, ev: Event, accepted: bool)
    requires Valid(s.r) && Fifo(s) && s.pc.Posting? && s.r.count == RING_SIZE && s.pc.place == |s.removed|
    ensures var s' := Step(Step(s, Produce(ev)), Finish(Answered(accepted)));
            && s'.removed == s.removed + [(s.pc.mine, Overwritten), (s.reported[s.pc.place + 1], Consumed)]
  {
    var s1 := Step(s, Produce(ev));
    ProduceKeepsFifo(s, ev);
    PutIsDropOldest(s.r, ev);
    assert s.reported[s.pc.place] == Pending(s.r)[0] && s.reported[s.pc.place + 1] == Pending(s.r)[1];
    assert Pending(s1.r)[0] == Pending(s.r)[1];
  }

  function Produces(evs: seq<Event>): seq<Action> {
    seq(|evs|, i requires 0 <= i < |evs| => Produce(evs[i]))
  }

  /** Reports arriving reset the attempts exactly when they overflow the ring. */
  lemma {:induction false} ReportsReset(s: System, evs: seq<Event>)
    requires Valid(s.r)
    ensures var r := Run(s, Produces(evs));
            && r.pc == s.pc
            && r.r.attempts == (if Overflow(s.r.count, |evs|) > 0 then 0 else s.r.attempts)
            && r.r.count == Min(RING_SIZE, s.r.count + |evs|)
    decreases evs
  {
    if evs != [] {
      assert Produces(evs)[1..] == Produces(evs[1..]);
      ReportsReset(Step(s, Produce(evs[0])), evs[1..]);
    }
  }

  function CountAttempt(s: System, before: seq<Event>, between: seq<Event>): System
    requires Valid(s.r)
  {
    Step(Run(Step(Run(s, Produces(before)), Load), Produces(between)), Store)
  }

  lemma StoredFromLoad(s: System, before: seq<Event>, between: seq<Event>)
    requires Valid(s.r) && s.pc.Peeked?
    ensures CountAttempt(s, before, between).r.attempts
         == Bump(if Overflow(s.r.count, |before|) > 0 then 0 else s.r.attempts)
  {
    ReportsReset(s, before);
    var loaded := Step(Run(s, Produces(before)), Load);
    assert loaded.pc.Loaded?;
    ReportsReset(loaded, between);
  }

  lemma FreshUnlessCounted(count: nat, before: nat, total: nat, attempts: u8)
    requires before <= total
    ensures Overflow(count, total) > 0 && Bump(if Overflow(count, before) > 0 then 0 else attempts) != 1
       <==> attempts > 0 && count + before <= RING_SIZE < count + total
  {
  }

  /**
   * The increment is a load and a store. An overflow grants the new oldest event a fresh
   * budget, of which this attempt is the first; the store takes it away again exactly if
   * attempts had been counted and the ring overflowed after the load but not before it.
   */
  lemma StaleBudgetIff(s: System, before: seq<Event>, between: seq<Event>)
    requires Valid(s.r) && s.pc.Peeked?
    ensures var total := |before| + |between|;
            Overflow(s.r.count, total) > 0 && CountAttempt(s, before, between).r.attempts != 1
            <==> s.r.attempts > 0 && s.r.count + |before| <= RING_SIZE < s.r.count + total
  {
    StoredFromLoad(s, before, between);
    FreshUnlessCounted(s.r.count, |before|, |before| + |between|, s.r.attempts);
  }

  /** Without interference the steps are the flush call. */
  lemma UninterruptedIsFlush(s: System, p: Reporter, post: Post)
    requires Valid(s.r) && s.pc.Idle? && p.ring == s.r
    ensures var s' := Step(Step(Step(Step(Step(s, Peek), Load), Store), Finish(post)), Drop);
            s'.r == Flush(p, post).0.ring && s'.pc.Idle?
  {
  }

  // ---- Reports ---------------------------------------------------------------------------------

  /** The first `max` characters. */
  predicate Shortened(s: string, full: string, max: nat) {
    s <= full && |s| == Min(|full|, max)
  }

  /**
   * A report is a produced event exactly if the reporter is enabled and a state is named; it carries
   * the first 19, 23 and 111 characters of its three texts, and an empty text for a missing one.
   */
  lemma ReportIsProduce(
    s: System, p: Reporter, state: Option<string>, version: Option<string>, detail: Option<string>)
    requires Valid(s.r) && p.ring == s.r
    ensures var ev := MakeEvent(if state.Some? then state.value else "", version, detail);
            && Report(p, state, version, detail)
               == (if p.enabled && state.Some? && state.value != "" then p.(ring := Step(s, Produce(ev)).r) else p)
            && (state.Some? ==> Shortened(ev.state, state.value, 19))
            && Shortened(ev.version, if version.Some? then version.value else "", 23)
            && Shortened(ev.detail, if detail.Some? then detail.value else "", 111)
  {
  }

  // ---- When an event is sent -------------------------------------------------------------------

  /** Seconds to wait after n failures in a row: 5, from two on 15, from four on 45. */
  function Pause(n: nat): nat {
    if n < 2 then 5 else if n < 4 then 15 else 45
  }

  /** The tick tries to send the oldest event. */
  predicate Tries(p: Reporter, online: bool, now: u32)
    requires Valid(p.ring)
  {
    && p.enabled && online && p.ring.count > 0
    && (now - p.lastFlush) % 0x1_0000_0000 >= 1000 * Pause(p.fails)
  }

  /**
   * One tick: a try stamps the clock and counts towards the event's attempts; an answer takes the
   * event out and ends the failures, a failure counts, and takes it out after twenty attempts.
   * Without a try nothing moves, but an empty ring forgets the failures.
   */
  lemma TickTriesIff(p: Reporter, online: bool, now: u32, post: Post)
    requires Valid(p.ring)
    ensures var p' := TickEffect(p, online, now, post);
            var attempts := (p.ring.attempts + 1) % 256;
            var dropped := post.Failed? && attempts >= 20;
            && p'.enabled == p.enabled
            && (!Tries(p, online, now) ==>
                  p' == if p.enabled && online && p.ring.count == 0 then p.(fails := 0) else p)
            && (Tries(p, online, now) ==>
                  && p'.lastFlush == now
                  && p'.fails == (if post.Answered? then 0 else (p.fails + 1) % 256)
                  && Pending(p'.ring) == (if post.Answered? || dropped then Pending(p.ring)[1..] else Pending(p.ring))
                  && p'.ring.attempts == (if post.Answered? || dropped then 0 else attempts))
  {
    TakeIsPop(p.ring.(attempts := Bump(p.ring.attempts)));
    assert Pending(p.ring.(attempts := Bump(p.ring.attempts))) == Pending(p.ring);
  }

  /** One call of the tick. */
  datatype Tick = Tick(online: bool, now: u32, post: Post)

  function Ticks(p: Reporter, ts: seq<Tick>): (r: Reporter)
    requires Valid(p.ring)
    ensures Valid(r.ring)
    decreases ts
  {
    if ts == [] then p
    else
      var r, t := Ticks(p, ts[..|ts| - 1]), ts[|ts| - 1];
      TickStaysValid(r, t);
      TickEffect(r, t.online, t.now, t.post)
  }

  lemma TickStaysValid(p: Reporter, t: Tick)
    requires Valid(p.ring)
    ensures Valid(TickEffect(p, t.online, t.now, t.post).ring)
  {
  }

  /** A flush answers true exactly if there was nothing to send or what it sent was answered. */
  lemma FlushAnswersIff(p: Reporter, post: Post)
    requires Valid(p.ring)
    ensures Flush(p, post).1 <==> Pending(p.ring) == [] || post.Answered?
  {
  }

  /** What a tick makes of a number of unanswered tries. */
  function UnansweredAfter(r: Reporter, t: Tick, n: nat): nat
    requires Valid(r.ring)
  {
    if Tries(r, t.online, t.now) then (if t.post.Answered? then 0 else n + 1)
    else if r.enabled && t.online && r.ring.count == 0 then 0
    else n
  }

  /** Tries without an answer since the last answer, or since the ring was last found empty. */
  function Unanswered(p: Reporter, ts: seq<Tick>): nat
    requires Valid(p.ring)
    decreases ts
  {
    if ts == [] then p.fails
    else UnansweredAfter(Ticks(p, ts[..|ts| - 1]), ts[|ts| - 1], Unanswered(p, ts[..|ts| - 1]))
  }

  lemma NextCount(n: nat, fails: u8)
    requires fails == n % 256
    ensures (fails + 1) % 256 == (n + 1) % 256
  {
  }

  lemma TickCounts(r: Reporter, t: Tick, n: nat)
    requires Valid(r.ring) && r.fails == n % 256
    ensures TickEffect(r, t.online, t.now, t.post).fails == UnansweredAfter(r, t, n) % 256
  {
    TickTriesIff(r, t.online, t.now, t.post);
    NextCount(n, r.fails);
  }

  /**
   * Over any ticks the pause is that of the tries unanswered in a row, counted in eight bits: the
   * 256th brings it back to five seconds.
   */
  lemma {:induction false} FailsAreUnanswered(p: Reporter, ts: seq<Tick>)
    requires Valid(p.ring)
    ensures Ticks(p, ts).fails == Unanswered(p, ts) % 256
    decreases ts
  {
    if ts != [] {
      FailsAreUnanswered(p, ts[..|ts| - 1]);
      TickCounts(Ticks(p, ts[..|ts| - 1]), ts[|ts| - 1], Unanswered(p, ts[..|ts| - 1]));
    }
  }
}
