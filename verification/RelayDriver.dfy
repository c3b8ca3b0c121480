/** The PCF8574 relay driver as one task sees it: fields, one call at a time. */
module RelayDriver {
  import opened Common

  const ALL_OFF: bv8 := 0xFF
  const CHANNEL_COUNT: nat := 8
  const ADDRESS_MIN: nat := 0x20
  const ADDRESS_MAX: nat := 0x27

  /**
   * One I2C write. `Acked`: the bus reported success. `Lost` and `Landed` are
   * the two things a reported failure can mean for the output register.
   */
  datatype WriteOutcome = Acked | Lost | Landed

  /** The driver's fields together with the expander's real output register. */
  datatype Bank = Bank(available: bool, latched: bool, unknown: bool, shadow: bv8, hw: bv8)

  function Register(before: bv8, value: bv8, w: WriteOutcome): bv8 {
    if w.Lost? then before else value
  }

  /** `1 << ch`, one shift at a time. */
  function Mask(ch: nat): bv8 {
    if ch == 0 then 1 else Mask(ch - 1) << 1
  }

  /** Active-low: a clear bit energises the relay. */
  predicate IsOn(reg: bv8, ch: nat)
    requires ch < CHANNEL_COUNT
  {
    reg & Mask(ch) == 0
  }

  function Clear(reg: bv8, mask: bv8): bv8 {
    reg & !mask
  }

  function Set(reg: bv8, mask: bv8): bv8 {
    reg | mask
  }

  function Next(shadow: bv8, ch: nat, on: bool): bv8
    requires ch < CHANNEL_COUNT
  {
    if on then Clear(shadow, Mask(ch)) else Set(shadow, Mask(ch))
  }

  /** The driver knows the bank: its shadow is the register. */
  predicate Agrees(b: Bank) {
    !b.unknown ==> b.shadow == b.hw
  }

  // ---- What each call does to the bank ------------------------------------

  function SetChannelEffect(b: Bank, ch: nat, on: bool, locked: bool, w: WriteOutcome): (Bank, bool) {
    if !b.available || ch >= CHANNEL_COUNT || b.unknown || !locked || (on && b.latched) then (b, false)
    else
      var next := Next(b.shadow, ch, on);
      var b' := b.(hw := Register(b.hw, next, w));
      if w.Acked? then (b'.(shadow := next), true) else (b'.(unknown := true), false)
  }

  function WriteAllOff(b: Bank, w: WriteOutcome): Bank {
    var b' := b.(hw := Register(b.hw, ALL_OFF, w));
    if w.Acked? then b'.(shadow := ALL_OFF, unknown := false) else b'.(unknown := true)
  }

  function AllOffEffect(b: Bank, w: WriteOutcome): Bank {
    if b.available then WriteAllOff(b, w) else b
  }

  function ForceEffect(b: Bank, w: WriteOutcome): Bank {
    AllOffEffect(b.(latched := true), w)
  }

  /** `readback` is what the verifying read returned; None when the read failed. */
  function RecoverEffect(b: Bank, locked: bool, w: WriteOutcome, readback: Option<bv8>): (Bank, bool) {
    if !b.available || !locked then (b, false)
    else
      var b' := b.(hw := Register(b.hw, ALL_OFF, w));
      if w.Acked? && readback == Some(ALL_OFF) then (b'.(shadow := ALL_OFF, unknown := false), true)
      else (b', false)
  }

  function BeginEffect(b: Bank, address: nat, w: WriteOutcome, readback: Option<bv8>): (Bank, bool) {
    if address < ADDRESS_MIN || address > ADDRESS_MAX then (b.(available := false), false)
    else
      var b' := b.(shadow := ALL_OFF, hw := Register(b.hw, ALL_OFF, w));
      if w.Acked? && readback == Some(ALL_OFF) then (b'.(available := true, unknown := false), true)
      else (b'.(available := false), false)
  }

  /** A driver that came up knows its bank to be off, whatever it was before; the latch is not touched. */
  lemma BootKnowsTheBank(b: Bank, address: nat, w: WriteOutcome, readback: Option<bv8>)
    ensures var (b', ok) := BeginEffect(b, address, w, readback);
            && b'.latched == b.latched && ok == b'.available
            && (ok ==> Agrees(b') && !b'.unknown && b'.hw == ALL_OFF)
            && (ok <==> 0x20 <= address <= 0x27 && w == Acked && readback == Some(0xFF))
  {
  }

  // ---- The class -----------------------------------------------------------

  class RelayExpanderDriver {
    var available: bool
    var shadowUnknown: bool
    var outputState: bv8
    var safetyLatched: bool
    /** The register inside the expander; no code path reads it directly. */
    ghost var hw: bv8

    ghost function View(): Bank
      reads this
    {
      Bank(available, safetyLatched, shadowUnknown, outputState, hw)
    }

    constructor (ghost powerOn: bv8)
      ensures View() == Bank(false, true, false, ALL_OFF, powerOn)
    {
      available, shadowUnknown, outputState, safetyLatched := false, false, ALL_OFF, true;
      hw := powerOn;
    }

    method WriteOutput(value: bv8, w: WriteOutcome) returns (ok: bool)
      modifies this`hw
      ensures ok == w.Acked?
      ensures hw == Register(old(hw), value, w)
    {
      hw := Register(hw, value, w);
      ok := w.Acked?;
    }

    /** Boot: available only after a write and a read-back that returned 0xFF. */
    method Begin(address: nat, w: WriteOutcome, readback: Option<bv8>) returns (ok: bool)
      modifies this
      ensures (View(), ok) == BeginEffect(old(View()), address, w, readback)
    {
      if address < ADDRESS_MIN || address > ADDRESS_MAX {
        available := false;
        return false;
      }
      outputState := ALL_OFF;
      var acked := WriteOutput(outputState, w);
      if !acked {
        available := false;
        return false;
      }
      if readback.None? {
        available := false;
        return false;
      }
      if readback.value != outputState {
        available := false;
        return false;
      }
      shadowUnknown := false;
      available := true;
      return true;
    }

    method SetChannelUnlocked(channel: nat, on: bool, w: WriteOutcome) returns (ok: bool)
      requires channel < CHANNEL_COUNT && available && !shadowUnknown && (on ==> !safetyLatched)
      modifies this
      ensures (View(), ok) == SetChannelEffect(old(View()), channel, on, true, w)
    {
      var mask := Mask(channel);
      var next := outputState;
      if on {
        next := Clear(next, mask);
      } else {
        next := Set(next, mask);
      }
      var acked := WriteOutput(next, w);
      if !acked {
        shadowUnknown := true;
        return false;
      }
      outputState := next;
      return true;
    }

    /** `locked`: whether the write mutex was obtained within the bound. */
    method SetChannel(channel: nat, on: bool, locked: bool, w: WriteOutcome) returns (ok: bool)
      modifies this
      ensures (View(), ok) == SetChannelEffect(old(View()), channel, on, locked, w)
      ensures ok <==> && old(available) && channel < 8 && !old(shadowUnknown) && locked
                      && !(on && old(safetyLatched)) && w.Acked?
      ensures safetyLatched == old(safetyLatched)
    {
      if !available || channel >= CHANNEL_COUNT {
        return false;
      }
      if shadowUnknown {
        return false;
      }
      if !locked {
        return false;
      }
      ok := false;
      if on && safetyLatched {
      } else {
        ok := SetChannelUnlocked(channel, on, w);
      }
    }

    /** The tail shared by `forceSafetyAllOff` and `allOff`, locked or starved. */
    method AttemptAllOff(w: WriteOutcome)
      modifies this
      ensures View() == WriteAllOff(old(View()), w)
    {
      var acked := WriteOutput(ALL_OFF, w);
      if acked {
        outputState := ALL_OFF;
        shadowUnknown := false;
      } else {
        shadowUnknown := true;
      }
    }

    method ForceSafetyAllOff(w: WriteOutcome)
      modifies this
      ensures View() == ForceEffect(old(View()), w)
      ensures safetyLatched
      ensures available && w.Acked? ==> hw == 0xFF && outputState == 0xFF && !shadowUnknown
      ensures available && !w.Acked? ==> shadowUnknown && (hw == old(hw) || hw == 0xFF)
    {
      safetyLatched := true;
      if !available {
        return;
      }
      AttemptAllOff(w);
    }

    method ClearSafetyLatch()
      modifies this`safetyLatched
      ensures View() == old(View()).(latched := false)
    {
      safetyLatched := false;
    }

    method AllOff(w: WriteOutcome)
      modifies this
      ensures View() == AllOffEffect(old(View()), w)
    {
      if !available {
        return;
      }
      AttemptAllOff(w);
    }

    method RecoverWithAllOff(locked: bool, w: WriteOutcome, readback: Option<bv8>) returns (ok: bool)
      modifies this
      ensures (View(), ok) == RecoverEffect(old(View()), locked, w, readback)
      ensures ok <==> old(available) && locked && w.Acked? && readback == Some(0xFF)
      ensures ok ==> hw == 0xFF && outputState == 0xFF && !shadowUnknown
      ensures !ok ==> outputState == old(outputState) && shadowUnknown == old(shadowUnknown)
    {
      if !available {
        return false;
      }
      if !locked {
        return false;
      }
      ok := WriteOutput(ALL_OFF, w);
      var value: bv8 := 0;
      if ok {
        ok := readback.Some?;
        if ok {
          value := readback.value;
        }
      }
      if ok && value != ALL_OFF {
        ok := false;
      }
      if ok {
        outputState := ALL_OFF;
        shadowUnknown := false;
      }
    }

    /** Reports 0xFF whenever the driver cannot vouch for the register. */
    method ReadState() returns (r: bv8)
      ensures Agrees(View()) ==> r == (if available && !shadowUnknown then hw else ALL_OFF)
    {
      if !available || shadowUnknown {
        return ALL_OFF;
      }
      return outputState;
    }
  }

  // ---- What one uninterrupted call guarantees ------------------------------

  lemma NextIsOneChannel(shadow: bv8, ch: nat, on: bool, k: nat)
    requires ch < CHANNEL_COUNT && k < CHANNEL_COUNT
    ensures IsOn(Next(shadow, ch, on), k) == if k == ch then on else IsOn(shadow, k)
  {
    var m, n := Mask(ch), Mask(k);
    MaskBits(ch, k);
    if k == ch {
      assert (shadow & !m) & m == 0;
      assert (shadow | m) & m == m;
    } else {
      assert m & n == 0;
      assert m & n == 0 ==> (shadow & !m) & n == shadow & n;
      assert m & n == 0 ==> (shadow | m) & n == shadow & n;
    }
  }

  lemma MaskBits(i: nat, j: nat)
    requires i < CHANNEL_COUNT && j < CHANNEL_COUNT
    ensures Mask(i) != 0
    ensures i != j ==> Mask(i) & Mask(j) == 0
  {
    MaskValue(i);
    MaskValue(j);
  }

  lemma MaskValue(i: nat)
    requires i < CHANNEL_COUNT
    ensures Mask(i) == [1 as bv8, 2, 4, 8, 16, 32, 64, 128][i]
  {
    assert Mask(2) == 4;
    assert Mask(4) == 16;
    assert Mask(6) == 64;
  }

  /**
   * A granted call switches exactly the named relay; a failed one leaves the
   * shadow alone and closes the driver until recovery; a refused one changes
   * nothing at all.
   */
  lemma SetChannelSwitchesOneRelay(b: Bank, ch: nat, on: bool, locked: bool, w: WriteOutcome)
    requires Agrees(b)
    ensures var (b', ok) := SetChannelEffect(b, ch, on, locked, w);
            && Agrees(b') && b'.latched == b.latched
            && (ok ==> ch < CHANNEL_COUNT && forall k: nat | k < CHANNEL_COUNT ::
                  IsOn(b'.hw, k) == if k == ch then on else IsOn(b.hw, k))
            && (!ok ==> b'.shadow == b.shadow && (b' == b || b'.unknown))
    ensures on && b.latched ==> SetChannelEffect(b, ch, on, locked, w) == (b, false)
  {
    if ch < CHANNEL_COUNT {
      forall k: nat | k < CHANNEL_COUNT
        ensures IsOn(Next(b.shadow, ch, on), k) == if k == ch then on else IsOn(b.shadow, k)
      {
        NextIsOneChannel(b.shadow, ch, on, k);
      }
    }
  }

  /**
   * Recovery answers true exactly for an acknowledged 0xFF read back as 0xFF, and then the bank
   * is off and known to be. Otherwise what the driver believes is as before, and the register is
   * as before or off; the latch is never touched.
   */
  lemma RecoveryAnswersIff(b: Bank, locked: bool, w: WriteOutcome, readback: Option<bv8>)
    ensures var (b', ok) := RecoverEffect(b, locked, w, readback);
            && (ok <==> b.available && locked && w == Acked && readback == Some(0xFF))
            && (ok ==> b'.hw == 0xFF && b'.shadow == 0xFF && !b'.unknown)
            && (!ok ==> b'.shadow == b.shadow && b'.unknown == b.unknown && (b'.hw == b.hw || b'.hw == 0xFF))
            && b'.available == b.available && b'.latched == b.latched
  {
  }

  /** A call to switch answers true exactly when nothing refuses it and the write is acknowledged. */
  lemma SetChannelAnswersIff(b: Bank, ch: nat, on: bool, locked: bool, w: WriteOutcome)
    ensures var (b', ok) := SetChannelEffect(b, ch, on, locked, w);
            && (ok <==> b.available && ch < 8 && !b.unknown && locked && !(on && b.latched) && w == Acked)
            && (ok ==> b'.shadow == b'.hw && !b'.unknown)
            && (!ok && b' != b ==> w != Acked && b'.unknown && b'.shadow == b.shadow)
            && b'.available == b.available && b'.latched == b.latched
  {
  }

  /**
   * A force call leaves the latch set whatever happens to its write; the bank is off and known to
   * be exactly as far as the write was acknowledged, and is not vouched for otherwise.
   */
  lemma ForceLatchesAndIsolates(b: Bank, w: WriteOutcome)
    ensures var b' := ForceEffect(b, w);
            && b'.latched && b'.available == b.available
            && (b.available && w == Acked ==> b'.hw == 0xFF && b'.shadow == 0xFF && !b'.unknown)
            && (b.available && w != Acked ==> b'.unknown && b'.shadow == b.shadow && (b'.hw == b.hw || b'.hw == 0xFF))
            && (!b.available ==> b' == b.(latched := true))
            && AllOffEffect(b, w) == b'.(latched := b.latched)
  {
  }

  /**
   * Recovery keeps the shadow truthful exactly when the shadow was unknown, the
   * recovery succeeded, or the register did not move under a known shadow.
   * The remaining case (write accepted, read-back failed or wrong, shadow
   * known) leaves a stale shadow that the driver still vouches for.
   */
  lemma RecoverKeepsAgreementIff(b: Bank, locked: bool, w: WriteOutcome, readback: Option<bv8>)
    requires Agrees(b)
    ensures var (b', ok) := RecoverEffect(b, locked, w, readback);
            Agrees(b') <==> b.unknown || ok || w.Lost? || !b.available || !locked || b.shadow == ALL_OFF
  {
  }

  lemma RecoverCanLeaveStaleShadow() returns (b: Bank, b': Bank)
    ensures Agrees(b) && b' == RecoverEffect(b, true, Acked, None).0 && !Agrees(b')
  {
    b := Bank(true, false, false, 0xFE, 0xFE);
    b' := RecoverEffect(b, true, Acked, None).0;
  }
}
