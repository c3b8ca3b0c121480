/** The Modbus RTU master: one holding-register read at a time over a serial line. */
module ModbusRtu {
  import opened Common
  import opened ModbusCrc

  const REG_BASE: bv16 := 100
  const REG_COUNT: nat := 13
  /** Address, function, byte count, data and checksum. */
  const EXPECT: nat := 31
  const RX_SIZE: nat := 64
  const READ_HOLDING: bv8 := 0x03
  const RESPONSE_TIMEOUT_MS: nat := 400

  /** The client's fields, the bytes waiting in the UART, and the last decoded window. */
  datatype Link = Link(started: bool, awaiting: bool, rx: seq<bv8>, line: seq<bv8>, sentMs: u32,
                       regs: Option<seq<bv16>>, lastUpdateMs: u32, frames: nat, errors: nat)

  // ---- Frames ------------------------------------------------------------------------

  function WithCrc(body: seq<bv8>): seq<bv8> {
    body + [LowByte(Crc16(body)), HighByte(Crc16(body))]
  }

  function Request(slave: bv8, start: bv16, count: bv16): seq<bv8> {
    WithCrc([slave, READ_HOLDING, HighByte(start), LowByte(start), HighByte(count), LowByte(count)])
  }

  /** Register values as a slave sends them: high byte first. */
  function BigEndian(regs: seq<bv16>): (r: seq<bv8>)
    ensures |r| == 2 * |regs|
  {
    if regs == [] then [] else [HighByte(regs[0]), LowByte(regs[0])] + BigEndian(regs[1..])
  }

  /** The reply of a slave whose window holds `regs`. */
  function Reply(slave: bv8, regs: seq<bv16>): (r: seq<bv8>)
    requires |regs| == REG_COUNT
    ensures |r| == EXPECT
  {
    WithCrc([slave, READ_HOLDING, 26] + BigEndian(regs))
  }

  predicate Accepts(frame: seq<bv8>, slave: bv8)
    requires |frame| >= EXPECT
  {
    && frame[0] == slave
    && frame[1] == READ_HOLDING
    && frame[2] == 26
    && Crc16(frame[..EXPECT - 2]) == FromBytes(frame[EXPECT - 2], frame[EXPECT - 1])
  }

  function RegisterAt(frame: seq<bv8>, k: nat): bv16
    requires |frame| >= EXPECT && k < REG_COUNT
  {
    FromBytes(frame[4 + 2 * k], frame[3 + 2 * k])
  }

  function Decode(frame: seq<bv8>): seq<bv16>
    requires |frame| >= EXPECT
  {
    seq(REG_COUNT, k requires 0 <= k < REG_COUNT => RegisterAt(frame, k))
  }

  // ---- What each call does -----------------------------------------------------------

  /** Starting a stopped client clears its data; starting a started one does nothing. */
  function Start(l: Link): Link {
    if l.started then l else l.(started := true, regs := None, lastUpdateMs := 0, frames := 0, errors := 0)
  }

  /** The open request, if any, is dropped. */
  function Stop(l: Link): Link {
    if l.started then l.(started := false, awaiting := false) else l
  }

  function SendRequest(l: Link, now: u32): (Link, bool) {
    if !l.started then (l, false)
    else (l.(line := [], rx := [], sentMs := now, awaiting := true), true)
  }

  /** Move waiting bytes into the receive buffer until either runs out. */
  function Drain(l: Link): Link {
    var n := if |l.rx| >= RX_SIZE then 0 else Min(|l.line|, RX_SIZE - |l.rx|);
    l.(rx := l.rx + l.line[..n], line := l.line[n..])
  }

  function Judge(l: Link, slave: bv8, now: u32): (Link, bool)
    requires |l.rx| >= EXPECT
  {
    var l' := l.(awaiting := false);
    if Accepts(l.rx, slave) then
      (l'.(regs := Some(Decode(l.rx)), lastUpdateMs := now, frames := l.frames + 1), true)
    else (l'.(errors := l.errors + 1), false)
  }

  function Expire(l: Link, now: u32): Link {
    if Elapsed(now, l.sentMs) > RESPONSE_TIMEOUT_MS then l.(awaiting := false, errors := l.errors + 1) else l
  }

  function Poll(l: Link, slave: bv8, now: u32): (Link, bool) {
    if !l.awaiting then (l, false)
    else
      var l' := Drain(l);
      if |l'.rx| >= EXPECT then Judge(l', slave, now) else (Expire(l', now), false)
  }

  // ---- The class ---------------------------------------------------------------------

  method BuildReadHolding(slave: bv8, start: bv16, count: bv16, out: array<bv8>) returns (len: nat)
    requires out.Length >= 8
    modifies out
    ensures len == 8 && out[..8] == Request(slave, start, count) && out[8..] == old(out[8..])
  {
    out[0] := slave;
    out[1] := READ_HOLDING;
    out[2] := HighByte(start);
    out[3] := LowByte(start);
    out[4] := HighByte(count);
    out[5] := LowByte(count);
    ghost var body := [slave, READ_HOLDING, HighByte(start), LowByte(start), HighByte(count), LowByte(count)];
    assert out[..6] == body;
    var crc := ComputeCrc16(out, 6);
    out[6] := LowByte(crc);
    out[7] := HighByte(crc);
    assert out[..8] == body + [LowByte(crc), HighByte(crc)];
    len := 8;
  }

  class ModbusRtuClient {
    const rxBuf: array<bv8>
    const txBuf: array<bv8>
    var rxLen: nat
    var txLen: nat
    var sentMs: u32
    var awaiting: bool
    var started: bool
    /** The UART receive queue. */
    var line: seq<bv8>
    var regs: Option<seq<bv16>>
    var lastUpdateMs: u32
    var frameCount: nat
    var errorCount: nat

    ghost predicate Valid()
      reads this
    {
      rxBuf.Length == RX_SIZE && txBuf.Length == 16 && rxBuf != txBuf && rxLen <= RX_SIZE && txLen <= 16
    }

    ghost function View(): Link
      reads this, rxBuf
      requires Valid()
    {
      Link(started, awaiting, rxBuf[..rxLen], line, sentMs, regs, lastUpdateMs, frameCount, errorCount)
    }

    constructor ()
      ensures Valid() && fresh(rxBuf) && fresh(txBuf)
      ensures View() == Link(false, false, [], [], 0, None, 0, 0, 0)
    {
      rxBuf := new bv8[RX_SIZE];
      txBuf := new bv8[16];
      rxLen, txLen, sentMs, awaiting, started := 0, 0, 0, false, false;
      line, regs, lastUpdateMs, frameCount, errorCount := [], None, 0, 0, 0;
    }

    method Begin()
      requires Valid()
      modifies this`started, this`regs, this`lastUpdateMs, this`frameCount, this`errorCount
      ensures Valid() && View() == Start(old(View()))
    {
      if started {
        return;
      }
      started := true;
      regs, lastUpdateMs, frameCount, errorCount := None, 0, 0, 0;
    }

    method RequestReading(slave: bv8, now: u32) returns (ok: bool)
      requires Valid()
      modifies this, txBuf
      ensures Valid()
      ensures (View(), ok) == SendRequest(old(View()), now)
      ensures ok ==> txBuf[..txLen] == Request(slave, REG_BASE, REG_COUNT as bv16)
    {
      if !started {
        return false;
      }
      line := [];
      txLen := BuildReadHolding(slave, REG_BASE, REG_COUNT as bv16, txBuf);
      rxLen := 0;
      sentMs := now;
      awaiting := true;
      return true;
    }

    method Receive()
      requires Valid()
      modifies this`rxLen, this`line, rxBuf
      ensures Valid() && View() == Drain(old(View()))
    {
      ghost var n := if rxLen >= RX_SIZE then 0 else Min(|line|, RX_SIZE - rxLen);
      ghost var i := 0;
      while line != [] && rxLen < RX_SIZE
        invariant 0 <= i <= n && rxLen == old(rxLen) + i
        invariant rxBuf[..rxLen] == old(rxBuf[..rxLen]) + old(line)[..i]
        invariant line == old(line)[i..]
        decreases |line|
      {
        rxBuf[rxLen] := line[0];
        line := line[1..];
        rxLen := rxLen + 1;
        i := i + 1;
        assert old(line)[..i] == old(line)[..i - 1] + [old(line)[i - 1]];
      }
    }

    method DecodeRegisters() returns (r: seq<bv16>)
      requires Valid() && rxLen >= EXPECT
      ensures r == Decode(rxBuf[..rxLen])
    {
      var out := new bv16[REG_COUNT];
      var k := 0;
      while k < REG_COUNT
        invariant 0 <= k <= REG_COUNT
        invariant forall j | 0 <= j < k :: out[j] == RegisterAt(rxBuf[..rxLen], j)
      {
        out[k] := FromBytes(rxBuf[4 + 2 * k], rxBuf[3 + 2 * k]);
        k := k + 1;
      }
      r := out[..];
    }

    /** Address, function and length, then the checksum over all but its own bytes. */
    method FrameIsGood(slave: bv8) returns (good: bool)
      requires Valid() && rxLen >= EXPECT
      ensures good == Accepts(rxBuf[..rxLen], slave)
    {
      if rxBuf[0] != slave || rxBuf[1] != READ_HOLDING {
        return false;
      }
      if rxBuf[1] & 0x80 != 0 {
        assert false;
      }
      if rxBuf[2] != 26 {
        return false;
      }
      var crc := ComputeCrc16(rxBuf, EXPECT - 2);
      assert rxBuf[..rxLen][..EXPECT - 2] == rxBuf[..EXPECT - 2];
      return crc == FromBytes(rxBuf[EXPECT - 2], rxBuf[EXPECT - 1]);
    }

    method Settle(slave: bv8, now: u32) returns (ok: bool)
      requires Valid() && rxLen >= EXPECT
      modifies this`awaiting, this`regs, this`lastUpdateMs, this`frameCount, this`errorCount
      ensures Valid()
      ensures (View(), ok) == Judge(old(View()), slave, now)
    {
      awaiting := false;
      ok := FrameIsGood(slave);
      if !ok {
        errorCount := errorCount + 1;
        return;
      }
      var r := DecodeRegisters();
      regs := Some(r);
      lastUpdateMs := now;
      frameCount := frameCount + 1;
    }

    method ExpireIfLate(now: u32)
      requires Valid()
      modifies this`awaiting, this`errorCount
      ensures Valid() && View() == Expire(old(View()), now)
    {
      if Elapsed(now, sentMs) > RESPONSE_TIMEOUT_MS {
        awaiting := false;
        errorCount := errorCount + 1;
      }
    }

    method PollReading(slave: bv8, now: u32) returns (ok: bool)
      requires Valid()
      modifies this, rxBuf
      ensures Valid()
      ensures (View(), ok) == Poll(old(View()), slave, now)
    {
      if !awaiting {
        return false;
      }
      Receive();
      ghost var drained := View();
      if rxLen >= EXPECT {
        ok := Settle(slave, now);
        assert (View(), ok) == Judge(drained, slave, now);
        return;
      }
      assert |drained.rx| < EXPECT;
      ExpireIfLate(now);
      return false;
    }

    method End()
      requires Valid()
      modifies this`started, this`awaiting
      ensures Valid()
      ensures View() == Stop(old(View()))
    {
      if started {
        started := false;
        awaiting := false;
      }
    }
  }

  // ---- Frames and residues -----------------------------------------------------------

  lemma WithCrcResidue(body: seq<bv8>)
    ensures Crc16(WithCrc(body)) == 0
  {
    BytesRoundTrip(Crc16(body));
    ResidueZeroIff(body, LowByte(Crc16(body)), HighByte(Crc16(body)));
  }

  /** The request for the register window: function 3, thirteen registers from register 100, then its checksum. */
  lemma WindowRequest(slave: bv8)
    ensures var body: seq<bv8> := [slave, 3, 0, 100, 0, 13];
            var frame := Request(slave, REG_BASE, REG_COUNT as bv16);
            frame[..6] == body && frame[6] == LowByte(Crc16(body)) && frame[7] == HighByte(Crc16(body)) && |frame| == 8
  {
    assert HighByte(100) == 0 && LowByte(100) == 100 && HighByte(13) == 0 && LowByte(13) == 13;
  }

  /** Every request put on the wire has residue zero. */
  lemma RequestResidue(slave: bv8, start: bv16, count: bv16)
    ensures |Request(slave, start, count)| == 8 && Crc16(Request(slave, start, count)) == 0
  {
    WithCrcResidue([slave, READ_HOLDING, HighByte(start), LowByte(start), HighByte(count), LowByte(count)]);
  }

  /** The checksum comparison is the residue test. */
  lemma AcceptsIffResidue(frame: seq<bv8>, slave: bv8)
    requires |frame| >= EXPECT
    ensures Accepts(frame, slave) <==>
            frame[0] == slave && frame[1] == READ_HOLDING && frame[2] == 26 && Crc16(frame[..EXPECT]) == 0
  {
    assert frame[..EXPECT] == frame[..EXPECT - 2] + [frame[EXPECT - 2], frame[EXPECT - 1]];
    ResidueZeroIff(frame[..EXPECT - 2], frame[EXPECT - 2], frame[EXPECT - 1]);
  }

  lemma {:induction false} BigEndianAt(regs: seq<bv16>, k: nat)
    requires k < |regs|
    ensures BigEndian(regs)[2 * k] == HighByte(regs[k]) && BigEndian(regs)[2 * k + 1] == LowByte(regs[k])
    decreases regs
  {
    if k > 0 {
      BigEndianAt(regs[1..], k - 1);
    }
  }

  lemma DecodesReply(frame: seq<bv8>, slave: bv8, regs: seq<bv16>)
    requires |regs| == REG_COUNT && Reply(slave, regs) <= frame
    ensures Decode(frame) == regs
  {
    forall k | 0 <= k < REG_COUNT
      ensures Decode(frame)[k] == regs[k]
    {
      BigEndianAt(regs, k);
      var r := Reply(slave, regs);
      assert r[3 + 2 * k] == BigEndian(regs)[2 * k] && r[4 + 2 * k] == BigEndian(regs)[2 * k + 1];
      assert frame[3 + 2 * k] == r[3 + 2 * k] && frame[4 + 2 * k] == r[4 + 2 * k];
      BytesRoundTrip(regs[k]);
    }
  }

  lemma AcceptsReply(frame: seq<bv8>, slave: bv8, regs: seq<bv16>)
    requires |regs| == REG_COUNT && Reply(slave, regs) <= frame
    ensures Accepts(frame, slave)
  {
    var body := [slave, READ_HOLDING, 26] + BigEndian(regs);
    assert frame[..EXPECT] == Reply(slave, regs);
    assert frame[0] == Reply(slave, regs)[0] && frame[1] == Reply(slave, regs)[1] && frame[2] == Reply(slave, regs)[2];
    WithCrcResidue(body);
    AcceptsIffResidue(frame, slave);
  }

  lemma DrainKeepsOrder(l: Link, frame: seq<bv8>)
    requires |l.rx| <= RX_SIZE && |frame| == EXPECT && frame <= l.rx + l.line
    ensures frame <= Drain(l).rx && Drain(l).rx + Drain(l).line == l.rx + l.line
  {
    var l' := Drain(l);
    assert l'.rx + l'.line == l.rx + l.line;
    assert |l'.rx| >= EXPECT;
  }

  /** A complete reply, however it arrived and whatever follows it, is accepted and decodes back. */
  lemma ReplyRoundTrip(l: Link, slave: bv8, regs: seq<bv16>, now: u32)
    requires |regs| == REG_COUNT && l.awaiting && |l.rx| <= RX_SIZE
    requires Reply(slave, regs) <= l.rx + l.line
    ensures Poll(l, slave, now).1
    ensures Poll(l, slave, now).0.regs == Some(regs) && Poll(l, slave, now).0.frames == l.frames + 1
    ensures Poll(l, slave, now).0.lastUpdateMs == now && !Poll(l, slave, now).0.awaiting
    ensures Poll(l, slave, now).0.errors == l.errors
  {
    DrainKeepsOrder(l, Reply(slave, regs));
    AcceptsReply(Drain(l).rx, slave, regs);
    DecodesReply(Drain(l).rx, slave, regs);
  }

  /** A reply damaged within sixteen consecutive bits is never taken, by any configured address. */
  lemma CorruptReplyRejected(l: Link, sender: bv8, regs: seq<bv16>, frame: seq<bv8>, p: nat, slave: bv8, now: u32)
    requires |regs| == REG_COUNT && l.awaiting && |l.rx| <= RX_SIZE
    requires |frame| == EXPECT && frame <= l.rx + l.line && frame != Reply(sender, regs)
    requires forall i | 0 <= i < 8 * EXPECT && !(p <= i < p + 16) ::
               BitStream(frame)[i] == BitStream(Reply(sender, regs))[i]
    ensures !Poll(l, slave, now).1
    ensures Poll(l, slave, now).0.regs == l.regs && Poll(l, slave, now).0.errors == l.errors + 1
  {
    DrainKeepsOrder(l, frame);
    assert Drain(l).rx[..EXPECT] == frame;
    WithCrcResidue([sender, READ_HOLDING, 26] + BigEndian(regs));
    BurstDetected(frame, Reply(sender, regs), p);
    AcceptsIffResidue(Drain(l).rx, slave);
  }

  // ---- Runs --------------------------------------------------------------------------

  /** `Arrive`: bytes reach the UART. The others are the calls of the manager. */
  datatype Op = Arrive(bytes: seq<bv8>) | Begin | Ask(at: u32) | Look(slave: bv8, now: u32) | End

  function Step(l: Link, op: Op): Link {
    match op
    case Arrive(bytes) => l.(line := l.line + bytes)
    case Begin => Start(l)
    case Ask(at) => SendRequest(l, at).0
    case Look(slave, now) => Poll(l, slave, now).0
    case End => Stop(l)
  }

  function Run(l: Link, ops: seq<Op>): Link
    decreases ops
  {
    if ops == [] then l else Run(Step(l, ops[0]), ops[1..])
  }

  /** Requests actually sent along a run. */
  function Asked(l: Link, ops: seq<Op>): nat
    decreases ops
  {
    if ops == [] then 0 else Flag(ops[0].Ask? && l.started) + Asked(Step(l, ops[0]), ops[1..])
  }

  /** Polls that closed the open request, with a frame or an error. */
  function Settled(l: Link, ops: seq<Op>): nat
    decreases ops
  {
    if ops == [] then 0
    else
      var l' := Step(l, ops[0]);
      Flag(ops[0].Look? && l.awaiting && !l'.awaiting) + Settled(l', ops[1..])
  }

  /** Requests still open when another was sent or the client ended: nothing settles them any more. */
  function Abandoned(l: Link, ops: seq<Op>): nat
    decreases ops
  {
    if ops == [] then 0
    else Flag((ops[0].Ask? || ops[0].End?) && l.started && l.awaiting) + Abandoned(Step(l, ops[0]), ops[1..])
  }

  /** Frames and errors counted before a `begin` that cleared them. */
  function Cleared(l: Link, ops: seq<Op>): nat
    decreases ops
  {
    if ops == [] then 0
    else (if ops[0].Begin? && !l.started then l.frames + l.errors else 0) + Cleared(Step(l, ops[0]), ops[1..])
  }

  lemma StepSettles(l: Link, op: Op)
    ensures var l' := Step(l, op);
            && Flag(l.awaiting) + Flag(op.Ask? && l.started)
               == Flag(op.Look? && l.awaiting && !l'.awaiting)
                  + Flag((op.Ask? || op.End?) && l.started && l.awaiting) + Flag(l'.awaiting)
            && l.frames + l.errors + Flag(op.Look? && l.awaiting && !l'.awaiting)
               == l'.frames + l'.errors + (if op.Begin? && !l.started then l.frames + l.errors else 0)
  {
  }

  /**
   * Over any calls, `begin` and `end` included: every request is settled once by a poll, or
   * abandoned, or is the open one, and every settling counts as one frame or one error.
   */
  lemma {:induction false} EveryRequestSettledOnce(l: Link, ops: seq<Op>)
    ensures Flag(l.awaiting) + Asked(l, ops) == Settled(l, ops) + Abandoned(l, ops) + Flag(Run(l, ops).awaiting)
    ensures l.frames + l.errors + Settled(l, ops) == Run(l, ops).frames + Run(l, ops).errors + Cleared(l, ops)
    decreases ops
  {
    if ops != [] {
      StepSettles(l, ops[0]);
      EveryRequestSettledOnce(Step(l, ops[0]), ops[1..]);
    }
  }

  function Delivered(op: Op): seq<bv8> {
    if op.Arrive? then op.bytes else []
  }

  function Arrived(ops: seq<Op>): seq<bv8>
    decreases ops
  {
    if ops == [] then []
    else Delivered(ops[0]) + Arrived(ops[1..])
  }

  /** A delivery, or a poll inside the response window. */
  predicate OpInTime(sentMs: u32, op: Op) {
    op.Arrive? || (op.Look? && Elapsed(op.now, sentMs) <= RESPONSE_TIMEOUT_MS)
  }

  predicate InTime(sentMs: u32, ops: seq<Op>) {
    forall k | 0 <= k < |ops| :: OpInTime(sentMs, ops[k])
  }

  lemma ShortStepWaits(l: Link, op: Op)
    requires l.awaiting && OpInTime(l.sentMs, op)
    requires |l.rx| + |l.line| + |Delivered(op)| < EXPECT
    ensures Step(l, op).awaiting && Step(l, op).sentMs == l.sentMs
    ensures Step(l, op).frames == l.frames && Step(l, op).errors == l.errors
    ensures Step(l, op).rx + Step(l, op).line == (l.rx + l.line) + Delivered(op)
  {
    if op.Look? {
      assert Drain(l).rx + Drain(l).line == l.rx + l.line;
    } else {
      assert l.rx + (l.line + op.bytes) == (l.rx + l.line) + op.bytes;
    }
  }

  lemma {:induction false} ShortArrivalsWait(l: Link, ops: seq<Op>)
    requires l.awaiting && InTime(l.sentMs, ops)
    requires |l.rx + l.line| + |Arrived(ops)| < EXPECT
    ensures Run(l, ops).awaiting && Run(l, ops).frames == l.frames && Run(l, ops).errors == l.errors
    ensures Run(l, ops).rx + Run(l, ops).line == (l.rx + l.line) + Arrived(ops)
    decreases ops
  {
    if ops == [] {
      assert (l.rx + l.line) + Arrived(ops) == l.rx + l.line;
    } else {
      var op, l' := ops[0], Step(l, ops[0]);
      assert |l.rx + l.line| == |l.rx| + |l.line|;
      ShortStepWaits(l, op);
      ShortArrivalsWait(l', ops[1..]);
      assert ((l.rx + l.line) + Delivered(op)) + Arrived(ops[1..]) == (l.rx + l.line) + (Delivered(op) + Arrived(ops[1..]));
    }
  }

  lemma LastPiece(l: Link, slave: bv8, regs: seq<bv16>, sofar: seq<bv8>, last: seq<bv8>, now: u32)
    requires |regs| == REG_COUNT && l.awaiting && |sofar| < EXPECT
    requires l.rx + l.line == sofar && Reply(slave, regs) <= sofar + last
    ensures Poll(Step(l, Arrive(last)), slave, now).1
    ensures Poll(Step(l, Arrive(last)), slave, now).0.regs == Some(regs)
  {
    var m := l.(line := l.line + last);
    assert m == Step(l, Arrive(last));
    assert m.rx + m.line == sofar + last;
    assert |l.rx + l.line| < EXPECT;
    ReplyRoundTrip(m, slave, regs, now);
  }

  /** However the line cuts a reply into pieces, the poll that sees the last piece decodes it. */
  lemma ChunkedReplyDecodes(l: Link, slave: bv8, regs: seq<bv16>, ops: seq<Op>, last: seq<bv8>, now: u32)
    requires |regs| == REG_COUNT && l.awaiting && l.rx == [] && l.line == []
    requires InTime(l.sentMs, ops) && |Arrived(ops)| < EXPECT
    requires Reply(slave, regs) <= Arrived(ops) + last
    ensures Run(l, ops).frames == l.frames && Run(l, ops).errors == l.errors
    ensures Poll(Step(Run(l, ops), Arrive(last)), slave, now).1
    ensures Poll(Step(Run(l, ops), Arrive(last)), slave, now).0.regs == Some(regs)
  {
    ShortArrivalsWait(l, ops);
    assert (l.rx + l.line) + Arrived(ops) == Arrived(ops);
    LastPiece(Run(l, ops), slave, regs, Arrived(ops), last, now);
  }
}
