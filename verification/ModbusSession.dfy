/** A session of the Modbus client: what opens a request, what closes it, and what the client then holds. */
module ModbusSession {
  import opened Common
  import opened ModbusCrc
  import opened ModbusRtu

  // ---- One poll ------------------------------------------------------------------------------

  /** What a poll has to look at: as much of what arrived as the 64-byte buffer takes. */
  function Got(l: Link): seq<bv8> {
    var whole := l.rx + l.line;
    if |whole| <= 64 then whole else whole[..64]
  }

  /** A reply to this slave: function 3, 26 data bytes, and a checksum that leaves residue zero. */
  predicate GoodReply(frame: seq<bv8>, slave: bv8) {
    |frame| >= 31 && frame[0] == slave && frame[1] == 3 && frame[2] == 26 && Crc16(frame[..31]) == 0
  }

  /** The thirteen registers of a reply, each high byte first. */
  predicate Registers(regs: seq<bv16>, frame: seq<bv8>) {
    |frame| >= 31 && |regs| == 13 && forall k | 0 <= k < 13 :: regs[k] == FromBytes(frame[4 + 2 * k], frame[3 + 2 * k])
  }

  lemma DrainGets(l: Link)
    requires |l.rx| <= 64
    ensures Drain(l).rx == Got(l) && Drain(l) == l.(rx := Got(l), line := (l.rx + l.line)[|Got(l)|..])
  {
  }

  lemma JudgesReply(l: Link, slave: bv8, now: u32)
    requires |l.rx| >= 31
    ensures var (l', ok) := Judge(l, slave, now);
            && (ok <==> GoodReply(l.rx, slave))
            && (ok ==> l'.regs.Some? && Registers(l'.regs.value, l.rx)
                       && l' == l.(awaiting := false, regs := l'.regs, lastUpdateMs := now, frames := l.frames + 1))
            && (!ok ==> l' == l.(awaiting := false, errors := l.errors + 1))
  {
    AcceptsIffResidue(l.rx, slave);
  }

  /**
   * A poll answers true exactly if a request is open and the first bytes that came are a good reply;
   * then the client holds its registers, as of now. The request is closed by 31 bytes, good or bad,
   * or by 400 ms; a bad reply and a missing one are one error each and leave the registers alone.
   */
  lemma PollAnswersIff(l: Link, slave: bv8, now: u32)
    requires |l.rx| <= 64
    ensures var (l', ok) := Poll(l, slave, now);
            var open := |Got(l)| < 31 && (now - l.sentMs) % 0x1_0000_0000 <= 400;
            && (ok <==> l.awaiting && GoodReply(Got(l), slave))
            && (!l.awaiting ==> l' == l)
            && (l.awaiting ==>
                  && l'.rx == Got(l) && l'.line == (l.rx + l.line)[|Got(l)|..] && l'.awaiting == open
                  && l'.frames == l.frames + Flag(ok) && l'.errors == l.errors + Flag(!ok && !open)
                  && l'.lastUpdateMs == (if ok then now else l.lastUpdateMs)
                  && (if ok then l'.regs.Some? && Registers(l'.regs.value, Got(l)) else l'.regs == l.regs)
                  && l'.started == l.started && l'.sentMs == l.sentMs)
  {
    if l.awaiting {
      DrainGets(l);
      var d := Drain(l);
      if |d.rx| >= 31 {
        JudgesReply(d, slave, now);
      }
    }
  }

  // ---- A whole exchange -------------------------------------------------------------------------

  /** Bytes reach the line, or a poll comes within 400 ms of the request. */
  predicate WithinWindow(at: u32, op: Op) {
    op.Arrive? || (op.Look? && (op.now - at) % 0x1_0000_0000 <= 400)
  }

  /**
   * Whatever a started client was doing and whatever lay in its buffers: it sends when asked, and a
   * reply that then arrives, in any pieces and polled within the window, is what it ends up holding.
   */
  lemma ExchangeDecodes(l: Link, at: u32, slave: bv8, regs: seq<bv16>, ops: seq<Op>, last: seq<bv8>, now: u32)
    requires l.started && |regs| == 13
    requires (forall k | 0 <= k < |ops| :: WithinWindow(at, ops[k])) && |Arrived(ops)| < 31
    requires Reply(slave, regs) <= Arrived(ops) + last
    ensures SendRequest(l, at).1
    ensures var waiting := Run(l, [Ask(at)] + ops);
            var (l', ok) := Poll(Step(waiting, Arrive(last)), slave, now);
            ok && l'.regs == Some(regs) && waiting.frames == l.frames && waiting.errors == l.errors
  {
    var m := SendRequest(l, at).0;
    assert ([Ask(at)] + ops)[1..] == ops;
    assert forall k | 0 <= k < |ops| :: WithinWindow(at, ops[k]) ==> OpInTime(m.sentMs, ops[k]);
    ChunkedReplyDecodes(m, slave, regs, ops, last, now);
  }

  // ---- Starting and stopping -----------------------------------------------------------------------

  /** The last of the calls to begin and to end, if there was one. */
  predicate StartedBy(ops: seq<Op>, before: bool)
    decreases ops
  {
    if ops == [] then before
    else
      var op := ops[|ops| - 1];
      if op.Begin? then true else if op.End? then false else StartedBy(ops[..|ops| - 1], before)
  }

  /** A stopped client has no request open. */
  predicate Quiet(l: Link) {
    |l.rx| <= 64 && (!l.started ==> !l.awaiting)
  }

  lemma StepStaysQuiet(l: Link, op: Op)
    requires Quiet(l)
    ensures Quiet(Step(l, op))
    ensures Step(l, op).started == (if op.Begin? then true else if op.End? then false else l.started)
  {
    if op.Look? {
      PollAnswersIff(l, op.slave, op.now);
    }
  }

  lemma {:induction false} RunEnd(l: Link, ops: seq<Op>, op: Op)
    ensures Run(l, ops + [op]) == Step(Run(l, ops), op)
    decreases ops
  {
    if ops == [] {
      assert ([op])[1..] == [];
    } else {
      assert (ops + [op])[1..] == ops[1..] + [op];
      RunEnd(Step(l, ops[0]), ops[1..], op);
    }
  }

  /** Over any calls a client is started exactly if its last begin came after its last end. */
  lemma {:induction false} StartedIsHistory(l: Link, ops: seq<Op>)
    requires Quiet(l)
    ensures Quiet(Run(l, ops)) && Run(l, ops).started == StartedBy(ops, l.started)
    decreases ops
  {
    if ops != [] {
      var n := |ops| - 1;
      assert ops == ops[..n] + [ops[n]];
      RunEnd(l, ops[..n], ops[n]);
      StartedIsHistory(l, ops[..n]);
      StepStaysQuiet(Run(l, ops[..n]), ops[n]);
    }
  }

  /** And while it is not, it neither sends nor takes anything. */
  lemma StoppedIsSilent(l: Link, ops: seq<Op>, slave: bv8, now: u32)
    requires Quiet(l) && !StartedBy(ops, l.started)
    ensures var r := Run(l, ops); SendRequest(r, now) == (r, false) && Poll(r, slave, now) == (r, false)
  {
    StartedIsHistory(l, ops);
  }

  // ---- What the client holds -----------------------------------------------------------------------

  /** A reading and when it was taken. */
  datatype Held = Held(regs: Option<seq<bv16>>, at: u32)

  /** A poll that answers true takes the registers it saw; a begin that starts the client forgets them. */
  function HeldAfter(l: Link, op: Op, held: Held): Held {
    match op
    case Look(slave, now) =>
      if l.awaiting && GoodReply(Got(l), slave) then Held(Some(Decode(Got(l))), now) else held
    case Begin => if l.started then held else Held(None, 0)
    case _ => held
  }

  function LastHeld(l: Link, ops: seq<Op>, held: Held): Held
    decreases ops
  {
    if ops == [] then held
    else HeldAfter(Run(l, ops[..|ops| - 1]), ops[|ops| - 1], LastHeld(l, ops[..|ops| - 1], held))
  }

  lemma StepHolds(l: Link, op: Op)
    requires |l.rx| <= 64
    ensures var l' := Step(l, op); Held(l'.regs, l'.lastUpdateMs) == HeldAfter(l, op, Held(l.regs, l.lastUpdateMs))
  {
    if op.Look? && l.awaiting {
      DrainGets(l);
      if |Got(l)| >= 31 {
        AcceptsIffResidue(Got(l), op.slave);
      }
    }
  }

  /** Over any calls the client holds the last reading it accepted since it was started, and when. */
  lemma {:induction false} ReadingIsHistory(l: Link, ops: seq<Op>)
    requires Quiet(l)
    ensures Held(Run(l, ops).regs, Run(l, ops).lastUpdateMs) == LastHeld(l, ops, Held(l.regs, l.lastUpdateMs))
    decreases ops
  {
    if ops != [] {
      var n := |ops| - 1;
      assert ops == ops[..n] + [ops[n]];
      RunEnd(l, ops[..n], ops[n]);
      StartedIsHistory(l, ops[..n]);
      ReadingIsHistory(l, ops[..n]);
      StepHolds(Run(l, ops[..n]), ops[n]);
    }
  }
}
