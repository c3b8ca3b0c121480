/** The journal as the firmware runs it: four parallel arrays, updated in place. */
module Journal {
  import opened Common
  import opened Crc32
  import opened JournalModel

  class TransactionJournal {
    const ids: array<Bytes>
    const hashes: array<Bytes>
    const acks: array<Bytes>
    const valid: array<bool>
    var size: nat
    var writeIdx: nat
    /** The "plts_txn" namespace. */
    var nvs: seq<Slot>

    ghost predicate Shaped() {
      && ids.Length == SIZE && hashes.Length == SIZE && acks.Length == SIZE && valid.Length == SIZE
      && ids != hashes && ids != acks && hashes != acks
    }

    ghost predicate Ready()
      reads this`nvs
    {
      Shaped() && |nvs| == SIZE
    }

    ghost function Cell(i: nat): Option<Entry>
      reads ids, hashes, acks, valid
      requires Shaped() && i < SIZE
    {
      if valid[i] then Some(Entry(ids[i], hashes[i], acks[i])) else None
    }

    ghost function Mirror(): (r: seq<Option<Entry>>)
      reads ids, hashes, acks, valid
      requires Shaped()
      ensures |r| == SIZE && forall i | 0 <= i < SIZE :: r[i] == Cell(i)
    {
      seq(SIZE, i requires 0 <= i < SIZE reads ids, hashes, acks, valid requires Shaped() => Cell(i))
    }

    ghost function View(): Store
      reads this, ids, hashes, acks, valid
      requires Ready()
    {
      Store(Mirror(), size, writeIdx, nvs)
    }

    ghost predicate Valid()
      reads this, ids, hashes, acks, valid
    {
      Ready() && JournalModel.Valid(View())
    }

    constructor (nvs: seq<Slot>, opens: bool)
      requires |nvs| == SIZE
      ensures Valid() && fresh(ids) && fresh(hashes) && fresh(acks) && fresh(valid)
      ensures View() == Boot(nvs, opens)
    {
      ids := new Bytes[SIZE](_ => []);
      hashes := new Bytes[SIZE](_ => []);
      acks := new Bytes[SIZE](_ => []);
      valid := new bool[SIZE](_ => false);
      size, writeIdx := 0, 0;
      this.nvs := nvs;
      new;
      if opens {
        LoadFromNvs();
      }
      BootIsValid(nvs, opens);
    }

    method PutCell(i: nat, e: Entry, present: bool)
      requires Shaped() && i < SIZE
      modifies ids, hashes, acks, valid
      ensures Mirror() == old(Mirror())[i := if present then Some(e) else None]
      ensures valid[i] == present && Entry(ids[i], hashes[i], acks[i]) == e
    {
      ids[i], hashes[i], acks[i], valid[i] := e.id, e.hash, e.ack, present;
    }

    method LoadSlot(i: nat) returns (found: bool)
      requires Ready() && i < SIZE && Mirror()[i].None?
      modifies ids, hashes, acks, valid
      ensures Mirror() == old(Mirror())[i := Recovered(nvs[i])] && found == Recovered(nvs[i]).Some?
    {
      if !nvs[i].Committed? {
        return false;
      }
      var e := nvs[i].e;
      if !Fits(e) || !ChecksumHolds(e) {
        return false;
      }
      PutCell(i, e, true);
      return true;
    }

    /** The first i slots are loaded as wanted, the others still empty. */
    ghost predicate Loaded(i: nat, want: seq<Option<Entry>>)
      requires Shaped() && |want| == SIZE && i <= SIZE
      reads this`size, ids, hashes, acks, valid
    {
      && Mirror() == want[..i] + seq(SIZE - i, _ => None)
      && size == Extent(want[..i])
    }

    method LoadNext(i: nat, ghost want: seq<Option<Entry>>)
      requires Ready() && i < SIZE && |want| == SIZE && want[i] == Recovered(nvs[i])
      requires Loaded(i, want)
      modifies this`size, ids, hashes, acks, valid
      ensures Loaded(i + 1, want)
    {
      FillStep(want, i);
      ExtentStep(want, i);
      var found := LoadSlot(i);
      if found && i >= size {
        size := i + 1;
      }
    }

    method LoadFromNvs()
      requires Ready() && Mirror() == seq(SIZE, _ => None)
      modifies this`size, this`writeIdx, ids, hashes, acks, valid
      ensures Ready() && View() == Boot(nvs, true)
    {
      ghost var want := Boot(nvs, true).ram;
      size := 0;
      var i := 0;
      assert Loaded(0, want);
      while i < SIZE
        invariant Ready() && 0 <= i <= SIZE && nvs == old(nvs) && Loaded(i, want)
      {
        LoadNext(i, want);
        i := i + 1;
      }
      assert want[..SIZE] == want && want + [] == want;
      writeIdx := size % SIZE;
    }

    method FindInJournal(id: Bytes) returns (idx: int)
      requires Valid()
      ensures idx == match Find(View().ram, id) case None => -1 case Some(i) => i
    {
      var i := 0;
      while i < size
        invariant 0 <= i <= size
        invariant forall k | 0 <= k < i && valid[k] :: ids[k] != id
      {
        if valid[i] && ids[i] == id {
          FindFirst(View().ram, id, i);
          return i;
        }
        i := i + 1;
      }
      FindNone(View().ram, id);
      return -1;
    }

    method SaveEntry(idx: nat, w: Writes) returns (ok: bool)
      requires Ready() && idx < SIZE && valid[idx]
      modifies this`nvs
      ensures Ready()
      ensures (nvs, ok) == var (slot, r) := WriteSlot(old(nvs)[idx], Cell(idx).value, w);
                           (old(nvs)[idx := slot], r)
    {
      ghost var was := nvs;
      var e := Stored(Entry(ids[idx], hashes[idx], acks[idx]));
      if w.first != Lost {
        nvs := nvs[idx := Torn(e)];
      }
      if w.first != Done {
        assert w.first == Lost ==> nvs == was[idx := was[idx]];
        return false;
      }
      if w.second != Lost {
        nvs := nvs[idx := Committed(e)];
        assert nvs == was[idx := Committed(e)];
      }
      return w.second == Done;
    }

    method StoreNewEntry(e: Entry, w: Writes) returns (ok: bool)
      requires Valid()
      modifies this, ids, hashes, acks, valid
      ensures Valid()
      ensures (View(), ok) == StoreNew(old(View()), e, w)
    {
      ghost var was := View();
      var i := writeIdx;
      var prev, prevValid := Entry(ids[i], hashes[i], acks[i]), valid[i];
      assert was.ram[i] == if prevValid then Some(prev) else None;
      PutCell(i, e, true);
      ok := SaveEntry(i, w);
      if !ok {
        PutCell(i, prev, prevValid);
        assert Mirror() == was.ram;
        return;
      }
      writeIdx := (i + 1) % SIZE;
      if i >= size {
        size := i + 1;
      }
    }

    method StoreTransaction(e: Entry, locked: bool, w: Writes) returns (ok: bool)
      requires Valid()
      modifies this, ids, hashes, acks, valid
      ensures Valid()
      ensures (View(), ok) == JournalModel.StoreTransaction(old(View()), locked, e, w)
    {
      if !locked {
        return false;
      }
      var idx := FindInJournal(e.id);
      if idx >= 0 {
        return hashes[idx] == e.hash;
      }
      ok := StoreNewEntry(e, w);
    }

    method SetAck(i: nat, ack: Bytes)
      requires Shaped() && i < SIZE && valid[i]
      modifies acks
      ensures Mirror() == old(Mirror())[i := Some(Entry(ids[i], hashes[i], ack))]
    {
      acks[i] := ack;
    }

    method UpdateAck(e: Entry, locked: bool, w: Writes) returns (ok: bool)
      requires Valid()
      modifies this, ids, hashes, acks, valid
      ensures Valid()
      ensures (View(), ok) == JournalModel.UpdateAck(old(View()), locked, e, w)
    {
      if !locked {
        return false;
      }
      ghost var was := View();
      var idx := FindInJournal(e.id);
      if idx < 0 {
        ok := StoreNewEntry(e, w);
        return;
      }
      if hashes[idx] != e.hash {
        return false;
      }
      var prevAck := acks[idx];
      SetAck(idx, e.ack);
      ok := SaveEntry(idx, w);
      if !ok {
        SetAck(idx, prevAck);
        assert Mirror() == was.ram;
      }
    }

    method Decide(id: Bytes, hash: Bytes, locked: bool) returns (d: Decision)
      requires Valid()
      ensures d == JournalModel.Decide(View(), locked, id, hash)
    {
      if !locked {
        return Unavailable;
      }
      var idx := FindInJournal(id);
      if idx < 0 {
        return New;
      }
      if hashes[idx] == hash {
        return Duplicate(acks[idx]);
      }
      return Conflict;
    }
  }
}
