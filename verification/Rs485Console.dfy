/** Passive capture of the RS485 bus: bytes in, frames out, the last sixteen kept. */
module Rs485Model {
  import opened Common

  const MAX_BYTES: nat := 64
  const GAP_MS: nat := 6
  const RING: nat := 16

  type Bytes = seq<bv8>

  /** A captured frame; `ts` is the time of its last byte. */
  datatype Frame = Frame(ts: u32, bytes: Bytes)

  const BLANK: Frame := Frame(0, [])

  /** All frames ever closed, the frame being collected, and when its last byte came. */
  datatype Segmenter = Segmenter(closed: seq<Frame>, open: Bytes, last: u32)

  function Close(s: Segmenter): Segmenter {
    if s.open == [] then s else s.(closed := s.closed + [Frame(s.last, s.open)], open := [])
  }

  predicate Gap(s: Segmenter, now: u32) {
    s.open != [] && Elapsed(now, s.last) >= GAP_MS
  }

  /** One byte read at `now`; an idle gap has been dealt with before. */
  function Feed(s: Segmenter, now: u32, b: bv8): Segmenter {
    var s' := if |s.open| < MAX_BYTES then s else Close(s);
    s'.(open := s'.open + [b], last := now)
  }

  function FeedAll(s: Segmenter, now: u32, bytes: Bytes): Segmenter
    decreases bytes
  {
    if bytes == [] then s else FeedAll(Feed(s, now, bytes[0]), now, bytes[1..])
  }

  function Tick(s: Segmenter, now: u32, bytes: Bytes): Segmenter {
    FeedAll(if Gap(s, now) then Close(s) else s, now, bytes)
  }

  /** How a ring of sixteen slots holds the newest frames; unused slots are blank. */
  predicate Holds(ring: seq<Frame>, head: nat, closed: seq<Frame>) {
    && |ring| == RING && head == |closed| % RING
    && (forall j | 0 <= j < |closed| && |closed| - RING <= j :: ring[j % RING] == closed[j])
    && (forall k | |closed| <= k < RING :: ring[k] == BLANK)
    && (forall j | 0 <= j < |closed| :: closed[j].bytes != [])
  }

  lemma DistinctSlots(j: nat, n: nat)
    requires n - RING < j < n
    ensures j % RING != n % RING
  {
  }

  lemma HoldsAfterClose(ring: seq<Frame>, head: nat, closed: seq<Frame>, f: Frame)
    requires Holds(ring, head, closed) && f.bytes != []
    ensures Holds(ring[head := f], (head + 1) % RING, closed + [f])
  {
    var n := |closed|;
    forall j | 0 <= j < n + 1 && n + 1 - RING <= j
      ensures ring[head := f][j % RING] == (closed + [f])[j]
    {
      if j < n {
        DistinctSlots(j, n);
        assert ring[j % RING] == closed[j];
      }
    }
  }

  /** Walking the ring from the write position meets the newest frames oldest first, blanks skipped. */
  function Walk(ring: seq<Frame>, head: nat, i: nat): seq<Frame>
    requires |ring| == RING && head < RING && i <= RING
    decreases RING - i
  {
    if i == RING then []
    else
      var f := ring[(head + i) % RING];
      (if f.bytes == [] then [] else [f]) + Walk(ring, head, i + 1)
  }

  lemma WalkStep(ring: seq<Frame>, head: nat, i: nat, f: Frame)
    requires |ring| == RING && head < RING && i < RING && f == ring[(head + i) % RING]
    ensures Walk(ring, head, i) == (if f.bytes == [] then [] else [f]) + Walk(ring, head, i + 1)
  {
  }

  lemma MetAppends(frames: seq<Frame>, f: Frame, rest: seq<Frame>)
    ensures (if f.bytes == [] then frames else frames + [f]) + rest
         == frames + ((if f.bytes == [] then [] else [f]) + rest)
  {
    if f.bytes == [] {
      assert [] + rest == rest;
    }
  }

  lemma NewestCons(closed: seq<Frame>, m: nat)
    requires 0 < m <= |closed|
    ensures Last(closed, m) == [closed[|closed| - m]] + Last(closed, m - 1)
  {
  }

  lemma NewestAll(closed: seq<Frame>, m: nat)
    requires |closed| < m
    ensures Last(closed, m) == Last(closed, m - 1)
  {
  }

  /** What the slot met at step i holds: the frame due there, or still nothing. */
  lemma SlotHolds(ring: seq<Frame>, head: nat, closed: seq<Frame>, i: nat)
    requires Holds(ring, head, closed) && i < RING
    ensures var f := ring[(head + i) % RING];
            if |closed| >= RING - i then f == closed[|closed| - (RING - i)] && f.bytes != [] else f == BLANK
  {
    var n := |closed|;
    if n >= RING - i {
      SlotMet(n, i);
      var j := n - (RING - i);
      assert ring[j % RING] == closed[j];
    } else {
      BlankMet(n, i);
    }
  }

  /** One step of the walk in terms of the frames closed. */
  lemma WalkMeets(ring: seq<Frame>, head: nat, closed: seq<Frame>, i: nat)
    requires Holds(ring, head, closed) && i < RING
    ensures Walk(ring, head, i) ==
            (if |closed| >= RING - i then [closed[|closed| - (RING - i)]] else []) + Walk(ring, head, i + 1)
  {
    SlotHolds(ring, head, closed, i);
    WalkStep(ring, head, i, ring[(head + i) % RING]);
  }

  lemma {:induction false} WalkFrom(ring: seq<Frame>, head: nat, closed: seq<Frame>, i: nat)
    requires Holds(ring, head, closed) && i <= RING
    ensures Walk(ring, head, i) == Last(closed, RING - i)
    decreases RING - i
  {
    if i < RING {
      WalkMeets(ring, head, closed, i);
      WalkFrom(ring, head, closed, i + 1);
      if |closed| >= RING - i {
        NewestCons(closed, RING - i);
      } else {
        NewestAll(closed, RING - i);
      }
    }
  }

  lemma SlotMet(n: nat, i: nat)
    requires i < RING && n >= RING - i
    ensures (n % RING + i) % RING == (n - (RING - i)) % RING
  {
  }

  lemma BlankMet(n: nat, i: nat)
    requires i < RING && n < RING - i
    ensures (n % RING + i) % RING == n + i
  {
  }

  lemma WalkIsNewest(ring: seq<Frame>, head: nat, closed: seq<Frame>)
    requires Holds(ring, head, closed)
    ensures Walk(ring, head, 0) == Last(closed, 16)
  {
    WalkFrom(ring, head, closed, 0);
  }
}

/** The console as the firmware runs it: a fixed buffer, a byte loop and a ring. */
module Rs485Console {
  import opened Common
  import opened Rs485Model

  class Rs485Console {
    const buf: array<bv8>
    const ring: array<Frame>
    var active: bool
    var bufLen: nat
    var lastByteMs: u32
    var ringHead: nat
    var totalFrames: u16
    /** Every frame closed since the start. */
    ghost var closed: seq<Frame>

    ghost predicate Valid()
      reads this, buf, ring
    {
      && buf.Length == MAX_BYTES && ring.Length == RING && bufLen <= MAX_BYTES
      && Holds(ring[..], ringHead, closed) && totalFrames == |closed| % U16_SIZE
    }

    ghost function View(): Segmenter
      reads this, buf, ring
      requires Valid()
    {
      Segmenter(closed, buf[..bufLen], lastByteMs)
    }

    constructor (active: bool)
      ensures Valid() && fresh(buf) && fresh(ring) && View() == Segmenter([], [], 0) && this.active == active
    {
      buf := new bv8[MAX_BYTES];
      ring := new Frame[RING](_ => BLANK);
      this.active := active;
      bufLen, lastByteMs, ringHead, totalFrames := 0, 0, 0, 0;
      closed := [];
    }

    method CloseFrame()
      requires Valid()
      modifies this`bufLen, this`ringHead, this`totalFrames, this`closed, ring
      ensures Valid() && View() == Close(old(View()))
    {
      if bufLen == 0 {
        return;
      }
      var f := Frame(lastByteMs, buf[..bufLen]);
      HoldsAfterClose(ring[..], ringHead, closed, f);
      ring[ringHead] := f;
      ringHead := (ringHead + 1) % RING;
      totalFrames := (totalFrames + 1) % U16_SIZE;
      closed := closed + [f];
      bufLen := 0;
    }

    /** One byte of the read loop. */
    method Accept(now: u32, b: bv8)
      requires Valid() && !Gap(View(), now)
      modifies this, buf, ring
      ensures Valid() && View() == Feed(old(View()), now, b) && active == old(active)
    {
      if bufLen == 0 {
        lastByteMs := now;
      } else if Elapsed(now, lastByteMs) >= GAP_MS {
        assert false;
      }
      if bufLen < MAX_BYTES {
        buf[bufLen] := b;
        bufLen := bufLen + 1;
      } else {
        CloseFrame();
        buf[bufLen] := b;
        bufLen := bufLen + 1;
      }
      lastByteMs := now;
    }

    /** `waiting` is what the UART has buffered. */
    method Tick(now: u32, waiting: Bytes)
      requires Valid()
      modifies this, buf, ring
      ensures Valid() && active == old(active)
      ensures View() == if active then Rs485Model.Tick(old(View()), now, waiting) else old(View())
    {
      if !active {
        return;
      }
      if bufLen > 0 && Elapsed(now, lastByteMs) >= GAP_MS {
        CloseFrame();
      }
      ghost var start := View();
      var i := 0;
      while i < |waiting|
        invariant 0 <= i <= |waiting| && Valid() && active == old(active)
        invariant !Gap(View(), now)
        invariant FeedAll(View(), now, waiting[i..]) == FeedAll(start, now, waiting)
      {
        assert waiting[i..][1..] == waiting[i + 1..];
        Accept(now, waiting[i]);
        i := i + 1;
      }
    }

    /** From the write position once around the ring, leaving out the slots never filled. */
    method WalkRing() returns (frames: seq<Frame>)
      requires ring.Length == RING && ringHead < RING
      ensures frames == Walk(ring[..], ringHead, 0)
    {
      frames := [];
      ghost var slots, head := ring[..], ringHead;
      var i := 0;
      while i < RING
        invariant 0 <= i <= RING
        invariant frames + Walk(slots, head, i) == Walk(slots, head, 0)
      {
        var f := ring[(ringHead + i) % RING];
        WalkStep(slots, head, i, f);
        MetAppends(frames, f, Walk(slots, head, i + 1));
        if |f.bytes| != 0 {
          frames := frames + [f];
        }
        i := i + 1;
      }
      assert frames + [] == frames;
    }

    /** The frames of the REST snapshot. */
    method Frames() returns (frames: seq<Frame>)
      requires Valid()
      ensures frames == Last(closed, RING)
    {
      frames := WalkRing();
      WalkIsNewest(ring[..], ringHead, closed);
    }
  }
}

/** Nothing is lost, duplicated or reordered, and where the cuts fall. */
module Rs485Properties {
  import opened Common
  import opened Rs485Model

  function Flatten(frames: seq<Frame>): Bytes {
    if frames == [] then [] else frames[0].bytes + Flatten(frames[1..])
  }

  function Stream(s: Segmenter): Bytes {
    Flatten(s.closed) + s.open
  }

  lemma {:induction false} FlattenSnoc(frames: seq<Frame>, f: Frame)
    ensures Flatten(frames + [f]) == Flatten(frames) + f.bytes
    decreases frames
  {
    if frames == [] {
      assert [] + [f] == [f];
    } else {
      assert (frames + [f])[1..] == frames[1..] + [f];
      FlattenSnoc(frames[1..], f);
    }
  }

  /** Frames have 1 to 64 bytes, and so does the one being collected unless it is empty. */
  predicate Sized(s: Segmenter) {
    |s.open| <= MAX_BYTES && forall j | 0 <= j < |s.closed| :: 1 <= |s.closed[j].bytes| <= MAX_BYTES
  }

  lemma CloseKeeps(s: Segmenter)
    requires Sized(s)
    ensures Sized(Close(s)) && Stream(Close(s)) == Stream(s)
  {
    FlattenSnoc(s.closed, Frame(s.last, s.open));
  }

  lemma {:induction false} FeedAllKeeps(s: Segmenter, now: u32, bytes: Bytes)
    requires Sized(s)
    ensures Sized(FeedAll(s, now, bytes)) && Stream(FeedAll(s, now, bytes)) == Stream(s) + bytes
    decreases bytes
  {
    if bytes != [] {
      CloseKeeps(s);
      var s' := Feed(s, now, bytes[0]);
      assert Stream(s') == Stream(s) + [bytes[0]];
      FeedAllKeeps(s', now, bytes[1..]);
      assert (Stream(s) + [bytes[0]]) + bytes[1..] == Stream(s) + bytes;
    }
  }

  datatype Input = Input(now: u32, bytes: Bytes)

  function Run(s: Segmenter, ins: seq<Input>): Segmenter
    decreases ins
  {
    if ins == [] then s else Run(Tick(s, ins[0].now, ins[0].bytes), ins[1..])
  }

  function Received(ins: seq<Input>): Bytes {
    if ins == [] then [] else ins[0].bytes + Received(ins[1..])
  }

  /** The closed frames and the open one, joined, are the bytes received so far. */
  lemma {:induction false} BytesConserved(s: Segmenter, ins: seq<Input>)
    requires Sized(s)
    ensures Sized(Run(s, ins)) && Stream(Run(s, ins)) == Stream(s) + Received(ins)
    decreases ins
  {
    if ins == [] {
      assert Stream(s) + [] == Stream(s);
    } else {
      var s1 := if Gap(s, ins[0].now) then Close(s) else s;
      CloseKeeps(s);
      FeedAllKeeps(s1, ins[0].now, ins[0].bytes);
      BytesConserved(Tick(s, ins[0].now, ins[0].bytes), ins[1..]);
      assert (Stream(s) + ins[0].bytes) + Received(ins[1..]) == Stream(s) + Received(ins);
    }
  }

  // ---- Where the cuts fall --------------------------------------------------------------------

  predicate Full(frames: seq<Frame>) {
    forall j | 0 <= j < |frames| :: |frames[j].bytes| == MAX_BYTES
  }

  /** Within one tick frames are only cut at the cap. */
  lemma {:induction false} FeedAllCutsAtCap(s: Segmenter, now: u32, bytes: Bytes)
    requires Sized(s)
    ensures var s' := FeedAll(s, now, bytes);
            s.closed <= s'.closed && Full(s'.closed[|s.closed|..])
            && (bytes != [] ==> s'.last == now)
    decreases bytes
  {
    if bytes != [] {
      var s1 := Feed(s, now, bytes[0]);
      CloseKeeps(s);
      FeedAllCutsAtCap(s1, now, bytes[1..]);
      var s' := FeedAll(s, now, bytes);
      assert s'.closed[|s.closed|..] == s1.closed[|s.closed|..] + s'.closed[|s1.closed|..];
    }
  }

  lemma {:induction false} FlattenAppend(a: seq<Frame>, b: seq<Frame>)
    ensures Flatten(a + b) == Flatten(a) + Flatten(b)
    decreases a
  {
    if a == [] {
      assert a + b == b;
    } else {
      assert (a + b)[1..] == a[1..] + b;
      FlattenAppend(a[1..], b);
      assert a[0].bytes + (Flatten(a[1..]) + Flatten(b)) == (a[0].bytes + Flatten(a[1..])) + Flatten(b);
    }
  }

  lemma FreshFrames(s: Segmenter, now: u32, bytes: Bytes)
    requires Sized(s) && s.open == []
    ensures var s' := FeedAll(s, now, bytes);
            s.closed <= s'.closed && Flatten(s'.closed[|s.closed|..]) + s'.open == bytes
  {
    var s' := FeedAll(s, now, bytes);
    FeedAllKeeps(s, now, bytes);
    FeedAllCutsAtCap(s, now, bytes);
    var more := s'.closed[|s.closed|..];
    assert s'.closed == s.closed + more;
    FlattenAppend(s.closed, more);
    var x, y := Flatten(s.closed), Flatten(more) + s'.open;
    assert Stream(s') == x + y && Stream(s) + bytes == x + bytes;
    assert y == (x + y)[|x|..] && bytes == (x + bytes)[|x|..];
  }

  /** A tick closes the collected frame if the bus has been idle for the gap, and otherwise cuts only full frames. */
  lemma CutsAtGapOrCap(s: Segmenter, now: u32, bytes: Bytes)
    requires Sized(s)
    ensures var closed' := Tick(s, now, bytes).closed;
            var idle := s.open != [] && (now - s.last) % 0x1_0000_0000 >= 6;
            var before := s.closed + if idle then [Frame(s.last, s.open)] else [];
            before <= closed' && forall j | |before| <= j < |closed'| :: |closed'[j].bytes| == 64
  {
    CloseKeeps(s);
    var s1 := if Gap(s, now) then Close(s) else s;
    FeedAllCutsAtCap(s1, now, bytes);
    var closed' := Tick(s, now, bytes).closed;
    assert forall j | |s1.closed| <= j < |closed'| :: closed'[j] == closed'[|s1.closed|..][j - |s1.closed|];
  }

  /** Bytes on the two sides of a gap never share a frame. */
  lemma GapSeparates(s: Segmenter, now: u32, bytes: Bytes)
    requires Sized(s) && Gap(s, now)
    ensures var s' := Tick(s, now, bytes);
            |s.closed| < |s'.closed| && Flatten(s'.closed[|s.closed| + 1..]) + s'.open == bytes
  {
    CloseKeeps(s);
    FreshFrames(Close(s), now, bytes);
  }

  lemma {:induction false} FeedAllAppend(s: Segmenter, now: u32, a: Bytes, b: Bytes)
    ensures FeedAll(s, now, a + b) == FeedAll(FeedAll(s, now, a), now, b)
    decreases a
  {
    if a == [] {
      assert a + b == b;
    } else {
      assert (a + b)[0] == a[0] && (a + b)[1..] == a[1..] + b;
      FeedAllAppend(Feed(s, now, a[0]), now, a[1..], b);
    }
  }

  lemma {:induction false} NoGapAfterFeed(s: Segmenter, now: u32, bytes: Bytes)
    requires !Gap(s, now)
    ensures !Gap(FeedAll(s, now, bytes), now)
    decreases bytes
  {
    if bytes != [] {
      NoGapAfterFeed(Feed(s, now, bytes[0]), now, bytes[1..]);
    }
  }

  /** How the UART slices what arrives in one millisecond makes no difference to the frames. */
  lemma SlicingIrrelevant(s: Segmenter, now: u32, a: Bytes, b: Bytes)
    ensures Tick(Tick(s, now, a), now, b) == Tick(s, now, a + b)
  {
    var s1 := if Gap(s, now) then Close(s) else s;
    NoGapAfterFeed(s1, now, a);
    FeedAllAppend(s1, now, a, b);
  }

  // ---- Time stamps ------------------------------------------------------------------------------

  /** When each byte came. */
  function Clocks(ins: seq<Input>): seq<u32> {
    if ins == [] then [] else seq(|ins[0].bytes|, _ => ins[0].now) + Clocks(ins[1..])
  }

  /** How many bytes the first j frames have. */
  function EndOf(frames: seq<Frame>, j: nat): nat
    requires j <= |frames|
  {
    |Flatten(frames[..j])|
  }

  /** Frame j is stamped with the time of its last byte. */
  predicate Timed(frames: seq<Frame>, j: nat, cs: seq<u32>)
    requires j < |frames|
  {
    0 < EndOf(frames, j + 1) <= |cs| && frames[j].ts == cs[EndOf(frames, j + 1) - 1]
  }

  /** Every frame is, and so is the one being collected. */
  predicate Stamped(s: Segmenter, cs: seq<u32>) {
    && |cs| == |Stream(s)|
    && (forall j | 0 <= j < |s.closed| :: Timed(s.closed, j, cs))
    && (s.open != [] ==> s.last == cs[|cs| - 1])
  }

  lemma ClosePrefixes(frames: seq<Frame>, f: Frame, j: nat)
    requires j <= |frames|
    ensures EndOf(frames + [f], j) == EndOf(frames, j)
    ensures EndOf(frames + [f], |frames| + 1) == |Flatten(frames)| + |f.bytes|
  {
    assert (frames + [f])[..j] == frames[..j];
    assert (frames + [f])[..|frames| + 1] == frames + [f];
    FlattenSnoc(frames, f);
  }

  lemma CloseStamps(s: Segmenter, cs: seq<u32>)
    requires Sized(s) && Stamped(s, cs)
    ensures Stamped(Close(s), cs)
  {
    var f := Frame(s.last, s.open);
    CloseKeeps(s);
    if s.open != [] {
      forall j | 0 <= j <= |s.closed|
        ensures Timed(s.closed + [f], j, cs)
      {
        CloseTimes(s.closed, f, j, cs);
      }
      assert Close(s).closed == s.closed + [f];
    }
  }

  lemma CloseTimes(frames: seq<Frame>, f: Frame, j: nat, cs: seq<u32>)
    requires j <= |frames| && (j < |frames| ==> Timed(frames, j, cs))
    requires f.bytes != [] && |cs| == |Flatten(frames)| + |f.bytes| && f.ts == cs[|cs| - 1]
    ensures Timed(frames + [f], j, cs)
  {
    ClosePrefixes(frames, f, if j < |frames| then j + 1 else 0);
  }

  lemma ByteStamps(s: Segmenter, cs: seq<u32>, now: u32, b: bv8)
    requires Sized(s) && Stamped(s, cs)
    ensures Stamped(s.(open := s.open + [b], last := now), cs + [now])
  {
    forall j | 0 <= j < |s.closed|
      ensures Timed(s.closed, j, cs + [now])
    {
      assert Timed(s.closed, j, cs);
    }
  }

  lemma FeedStamps(s: Segmenter, cs: seq<u32>, now: u32, b: bv8)
    requires Sized(s) && Stamped(s, cs)
    ensures Sized(Feed(s, now, b)) && Stamped(Feed(s, now, b), cs + [now])
  {
    CloseKeeps(s);
    CloseStamps(s, cs);
    ByteStamps(if |s.open| < MAX_BYTES then s else Close(s), cs, now, b);
  }

  lemma {:induction false} FeedAllStamps(s: Segmenter, cs: seq<u32>, now: u32, bytes: Bytes)
    requires Sized(s) && Stamped(s, cs)
    ensures Sized(FeedAll(s, now, bytes)) && Stamped(FeedAll(s, now, bytes), cs + seq(|bytes|, _ => now))
    decreases bytes
  {
    if bytes == [] {
      assert cs + seq(0, _ => now) == cs;
    } else {
      FeedStamps(s, cs, now, bytes[0]);
      FeedAllStamps(Feed(s, now, bytes[0]), cs + [now], now, bytes[1..]);
      assert (cs + [now]) + seq(|bytes[1..]|, _ => now) == cs + seq(|bytes|, _ => now);
    }
  }

  /** Over any run, however frames are cut, a frame's time is that of its last byte. */
  lemma {:induction false} StampsAreLastBytes(s: Segmenter, cs: seq<u32>, ins: seq<Input>)
    requires Sized(s) && Stamped(s, cs)
    ensures Stamped(Run(s, ins), cs + Clocks(ins))
    decreases ins
  {
    if ins == [] {
      assert cs + [] == cs;
    } else {
      var now, bytes := ins[0].now, ins[0].bytes;
      var s1 := if Gap(s, now) then Close(s) else s;
      CloseKeeps(s);
      CloseStamps(s, cs);
      FeedAllStamps(s1, cs, now, bytes);
      StampsAreLastBytes(Tick(s, now, bytes), cs + seq(|bytes|, _ => now), ins[1..]);
      assert (cs + seq(|bytes|, _ => now)) + Clocks(ins[1..]) == cs + Clocks(ins);
    }
  }
}
