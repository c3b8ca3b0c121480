/** The alarm registry as the firmware runs it: one fixed array, updated in place. */
module AlarmRegistry {
  import opened Common
  import opened AlarmModel

  const NOT_FOUND: nat := 0xFF

  class AlarmRegistry {
    const crc: Crc
    const slots: array<Alarm>
    var count: nat
    var dirty: bool
    var overflow: u32
    var persistFailures: u32
    var generation: u16
    /** The "plts_alarm" namespace; it outlives this object. */
    var flash: Flash

    ghost predicate Valid()
      reads this
    {
      slots.Length == MAX_ALARMS && count <= MAX_ALARMS
    }

    ghost function View(): Registry
      reads this, slots
      requires Valid()
    {
      Registry(slots[..count], dirty, overflow, persistFailures, generation, flash)
    }

    /** `begin()` on a flash left by earlier boots. */
    constructor (crc: Crc, flash: Flash, l: LoadEnv, e: SaveEnv)
      ensures Valid() && fresh(slots)
      ensures View() == Boot(crc, flash, l, e) && this.crc == crc
    {
      var blank := Alarm("", Info, Active, 0, 0, 0, 0, "");
      this.crc := crc;
      this.flash := flash;
      slots := new Alarm[MAX_ALARMS](_ => blank);
      count, dirty, generation := 0, false, 0;
      overflow, persistFailures := 0, 0;
      new;
      LoadFromNvs(l, e);
    }

    method FindIdx(code: string) returns (idx: nat)
      requires Valid()
      ensures idx == match IndexOf(View().alarms, code) case None => NOT_FOUND case Some(i) => i
    {
      var i := 0;
      while i < count
        invariant 0 <= i <= count
        invariant forall k | 0 <= k < i :: slots[k].code != code
      {
        if slots[i].code == code {
          assert View().alarms[i].code == code;
          return i;
        }
        i := i + 1;
      }
      return NOT_FOUND;
    }

    /** Index of the entry to give up, or NOT_FOUND when nothing may be evicted. */
    method FindOldestCleared() returns (oldest: nat)
      requires Valid()
      ensures oldest == match Victim(View().alarms) case None => NOT_FOUND case Some(v) => v
    {
      oldest := NOT_FOUND;
      var oldestClearedAt: u32, oldestRaisedAt: u32 := NEVER, NEVER;
      var i := 0;
      while i < count
        invariant 0 <= i <= count
        invariant oldest == match Victim(slots[..i]) case None => NOT_FOUND case Some(v) => v
        invariant oldest == NOT_FOUND ==> oldestClearedAt == NEVER && oldestRaisedAt == NEVER
        invariant oldest != NOT_FOUND ==>
          oldest < i && oldestClearedAt == slots[oldest].clearedAt && oldestRaisedAt == slots[oldest].raisedAt
      {
        assert slots[..i + 1][..i] == slots[..i];
        if slots[i].lifecycle == Cleared
          && (slots[i].clearedAt < oldestClearedAt
              || (slots[i].clearedAt == oldestClearedAt && slots[i].raisedAt < oldestRaisedAt)) {
          oldestClearedAt := slots[i].clearedAt;
          oldestRaisedAt := slots[i].raisedAt;
          oldest := i;
        }
        i := i + 1;
      }
    }

    /** Shift the entries after `at` one place down. */
    method Evict(at: nat)
      requires Valid() && at < count
      modifies this`count, slots
      ensures Valid() && count == old(count) - 1
      ensures slots[..count] == RemoveAt(old(slots[..count]), at)
    {
      var i := at;
      while i < count - 1
        invariant count == old(count) && at <= i <= count - 1
        invariant forall k | 0 <= k < at :: slots[k] == old(slots[k])
        invariant forall k | at <= k < i :: slots[k] == old(slots[k + 1])
        invariant forall k | i <= k < count :: slots[k] == old(slots[k])
      {
        slots[i] := slots[i + 1];
        i := i + 1;
      }
      count := count - 1;
    }

    /** Build the record, write it under one key, read it back, then commit. */
    method SaveToNvs(e: SaveEnv) returns (ok: bool)
      requires Valid()
      modifies this`dirty, this`persistFailures, this`generation, this`flash
      ensures Valid()
      ensures (View(), ok) == Save(crc, old(View()), e)
    {
      if !e.memory {
        persistFailures := Bump32(persistFailures);
        return false;
      }
      var h := Header(MAGIC, STATE_VERSION, Bump16(generation), count);
      var blob := Blob(h, crc(h, slots[..count]), slots[..count]);
      if !e.opens {
        persistFailures := Bump32(persistFailures);
        return false;
      }
      if e.landed {
        flash := flash.(state := Some(blob));
      }
      if !e.full {
        persistFailures := Bump32(persistFailures);
        return false;
      }
      var verified := e.readsBack && flash.state == Some(blob);
      if !verified {
        persistFailures := Bump32(persistFailures);
        return false;
      }
      generation := Bump16(generation);
      dirty := false;
      return true;
    }

    method CopyIn(src: seq<Alarm>)
      requires Valid() && |src| <= MAX_ALARMS
      modifies this`count, slots
      ensures Valid() && slots[..count] == src
    {
      var i := 0;
      while i < |src|
        invariant 0 <= i <= |src|
        invariant slots[..i] == src[..i]
      {
        slots[i] := src[i];
        i := i + 1;
      }
      count := |src|;
    }

    method LoadFromNvs(l: LoadEnv, e: SaveEnv)
      requires Valid()
      modifies this, slots
      ensures Valid()
      ensures View() == Load(crc, old(View()), l, e)
    {
      if !l.opens {
        return;
      }
      if flash.state.Some? && HeaderRead(flash.state.value, l) {
        var b := flash.state.value;
        if b.header.count > MAX_ALARMS {
          return;
        }
        if !l.memory {
          return;
        }
        var n := b.header.count;
        var sound := n <= |b.body| && crc(b.header, b.body[..n]) == b.crc;
        if !sound {
          return;
        }
        CopyIn(b.body[..n]);
        dirty := false;
        generation := b.header.generation;
        return;
      }
      if !LegacyRead(crc, flash, l) {
        return;
      }
      CopyIn(flash.legacy.value.body[..flash.legacy.value.count]);
      dirty := false;
      var _ := SaveToNvs(e);
    }

    /** `locked`: whether the registry mutex exists; without it the call is refused. */
    method RaiseTracked(code: Option<string>, sev: Severity, message: Option<string>, now: u32, locked: bool, e: SaveEnv)
      returns (result: RaiseResult)
      requires Valid()
      modifies this, slots
      ensures Valid()
      ensures !locked ==> View() == old(View()) && result == LockUnavailable
      ensures locked && code.None? ==> View() == old(View()) && result == Rejected
      ensures locked && code.Some? ==>
        (View(), result) == Raise(crc, old(View()), code.value, sev, message, now, e)
    {
      if !locked {
        return LockUnavailable;
      }
      if code.None? {
        return Rejected;
      }
      result := RaiseUnlocked(code.value, sev, message, now, e);
    }

    method RaiseUnlocked(code: string, sev: Severity, message: Option<string>, now: u32, e: SaveEnv)
      returns (result: RaiseResult)
      requires Valid()
      modifies this, slots
      ensures Valid()
      ensures (View(), result) == Raise(crc, old(View()), code, sev, message, now, e)
    {
      var idx := FindIdx(code);
      if idx != NOT_FOUND {
        result := RefreshAt(idx, code, sev, message, now, e);
      } else {
        result := RaiseNew(code, sev, message, now, e);
      }
    }

    method RaiseNew(code: string, sev: Severity, message: Option<string>, now: u32, e: SaveEnv)
      returns (result: RaiseResult)
      requires Valid() && IndexOf(slots[..count], code).None?
      modifies this, slots
      ensures Valid()
      ensures (View(), result) == Raise(crc, old(View()), code, sev, message, now, e)
    {
      var stored := Admit(Fresh(code, sev, message, now));
      if !stored {
        overflow := Bump32(overflow);
        return Rejected;
      }
      dirty := true;
      var persisted := SaveToNvs(e);
      result := if persisted then AcceptedPersisted else AcceptedPersistFailed;
    }

    method Admit(a: Alarm) returns (stored: bool)
      requires Valid()
      modifies this`count, slots
      ensures Valid()
      ensures var before := old(slots[..count]);
              if |before| < MAX_ALARMS then stored && slots[..count] == before + [a]
              else match Victim(before)
                case None => !stored && slots[..count] == before
                case Some(v) => stored && slots[..count] == RemoveAt(before, v) + [a]
    {
      stored := MakeRoom();
      if stored {
        slots[count] := a;
        count := count + 1;
      }
    }

    /** When the table is full, give up the oldest cleared entry, or report that none is. */
    method MakeRoom() returns (room: bool)
      requires Valid()
      modifies this`count, slots
      ensures Valid()
      ensures var before := old(slots[..count]);
              if |before| < MAX_ALARMS then room && slots[..count] == before
              else match Victim(before)
                case None => !room && slots[..count] == before
                case Some(v) => room && slots[..count] == RemoveAt(before, v)
    {
      if count >= MAX_ALARMS {
        var oldest := FindOldestCleared();
        if oldest == NOT_FOUND {
          return false;
        }
        Evict(oldest);
      }
      return true;
    }

    method RefreshAt(idx: nat, code: string, sev: Severity, message: Option<string>, now: u32, e: SaveEnv)
      returns (result: RaiseResult)
      requires Valid() && idx < count && IndexOf(slots[..count], code) == Some(idx)
      modifies this, slots
      ensures Valid()
      ensures (View(), result) == Raise(crc, old(View()), code, sev, message, now, e)
    {
      var a, meaningful := Refreshed(slots[idx], sev, message, now);
      slots[idx] := a;
      assert slots[..count] == old(slots[..count])[idx := a];
      if meaningful {
        dirty := true;
        var persisted := SaveToNvs(e);
        return if persisted then AcceptedPersisted else AcceptedPersistFailed;
      }
      return AcceptedRam;
    }

    method Refreshed(before: Alarm, sev: Severity, message: Option<string>, now: u32)
      returns (a: Alarm, meaningful: bool)
      ensures (a, meaningful) == Refresh(before, sev, message, now)
    {
      a, meaningful := before, false;
      if a.lifecycle == Cleared {
        a := a.(lifecycle := Active, raisedAt := now, acknowledgedAt := 0, clearedAt := 0, lastUpdatedAt := now);
        a := a.(severity := sev);
        meaningful := true;
      } else {
        if Rank(sev) > Rank(a.severity) {
          a := a.(severity := sev);
          meaningful := true;
        }
        a := a.(lastUpdatedAt := now);
      }
      if message.Some? && message.value != "" && a.message != message.value {
        a := a.(message := Clip(message.value, MESSAGE_LEN));
        meaningful := true;
      }
    }

    method Clear(code: string, now: u32, locked: bool, e: SaveEnv)
      requires Valid()
      modifies this, slots
      ensures Valid()
      ensures View() == if locked then AlarmModel.Clear(crc, old(View()), code, now, e) else old(View())
    {
      if !locked {
        return;
      }
      var idx := FindIdx(code);
      if idx == NOT_FOUND {
        return;
      }
      slots[idx] := ClearAlarm(slots[idx], now);
      dirty := true;
      var _ := SaveToNvs(e);
    }

    method ClearIfActive(code: string, now: u32, locked: bool, e: SaveEnv) returns (cleared: bool)
      requires Valid()
      modifies this, slots
      ensures Valid()
      ensures (View(), cleared) ==
        if locked then AlarmModel.ClearIfActive(crc, old(View()), code, now, e) else (old(View()), false)
    {
      if !locked {
        return false;
      }
      var idx := FindIdx(code);
      if idx == NOT_FOUND {
        return false;
      }
      if slots[idx].lifecycle == Cleared {
        return false;
      }
      slots[idx] := ClearAlarm(slots[idx], now);
      dirty := true;
      var _ := SaveToNvs(e);
      return true;
    }

    method Acknowledge(code: string, now: u32, locked: bool, e: SaveEnv)
      requires Valid()
      modifies this, slots
      ensures Valid()
      ensures View() == if locked then AlarmModel.Acknowledge(crc, old(View()), code, now, e) else old(View())
    {
      if !locked {
        return;
      }
      var idx := FindIdx(code);
      if idx == NOT_FOUND {
        return;
      }
      slots[idx] := AckAlarm(slots[idx], now);
      dirty := true;
      var _ := SaveToNvs(e);
    }

    method AcknowledgeAll(clock: Clock, locked: bool, e: SaveEnv)
      requires Valid()
      modifies this, slots
      ensures Valid()
      ensures View() == if locked then AlarmModel.AcknowledgeAll(crc, old(View()), clock, e) else old(View())
    {
      if !locked {
        return;
      }
      var i := 0;
      while i < count
        invariant unchanged(this) && 0 <= i <= count
        invariant forall k | 0 <= k < i :: slots[k] == AckActive(old(slots[k]), clock[k])
        invariant forall k | i <= k < count :: slots[k] == old(slots[k])
      {
        if slots[i].lifecycle == Active {
          slots[i] := slots[i].(lifecycle := Acknowledged, acknowledgedAt := clock[i]);
        }
        i := i + 1;
      }
      assert slots[..count] == AckAllRam(old(slots[..count]), clock);
      dirty := true;
      var _ := SaveToNvs(e);
    }
  }
}
