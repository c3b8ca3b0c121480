/**
 * The transaction journal: a 16-slot ring mirrored in RAM, each slot written
 * to NVS in two phases under one key.
 */
module JournalModel {
  import opened Common
  import opened Crc32

  const SIZE: nat := 16
  const ID_MAX: nat := 64
  const ACK_MAX: nat := 1024
  /** Bytes of a record after its 8-byte header. */
  const BODY: nat := 1192

  type Bytes = seq<bv8>

  datatype Entry = Entry(id: Bytes, hash: Bytes, ack: Bytes)

  /** What is stored under the key of a slot; `Torn` is a record whose valid byte is still 0. */
  datatype Slot = Empty | Torn(e: Entry) | Committed(e: Entry)

  datatype Store = Store(ram: seq<Option<Entry>>, size: nat, next: nat, nvs: seq<Slot>)

  /** One key write: reported done, or reported failed without or with effect. */
  datatype Put = Done | Lost | Landed

  datatype Writes = Writes(first: Put, second: Put)

  datatype Decision = New | Duplicate(ack: Bytes) | Conflict | Unavailable

  predicate Valid(s: Store) {
    && |s.ram| == SIZE && |s.nvs| == SIZE && s.size <= SIZE && s.next < SIZE
    && (s.size < SIZE ==> s.next == s.size)
    && forall i | 0 <= i < SIZE && s.ram[i].Some? :: i < s.size
  }

  // ---- The record --------------------------------------------------------------------

  /** Lengths pass through an 8-bit cast before they are capped. */
  function ClipText(t: Bytes): Bytes {
    t[..Min(|t| % 256, ID_MAX)]
  }

  function ClipAck(t: Bytes): Bytes {
    t[..Min(|t| % U16_SIZE, ACK_MAX)]
  }

  function Stored(e: Entry): Entry {
    Entry(ClipText(e.id), ClipText(e.hash), ClipAck(e.ack))
  }

  predicate Fits(e: Entry) {
    |e.id| <= ID_MAX && |e.hash| <= ID_MAX && |e.ack| <= ACK_MAX
  }

  function LengthByte(n: nat): bv8
    requires n < 256
  {
    n as bv8
  }

  function Payload(e: Entry): (p: Bytes)
    requires Fits(e)
    ensures 4 <= |p| <= 1156
  {
    [LengthByte(|e.id|)] + e.id + [LengthByte(|e.hash|)] + e.hash
      + [LengthByte(|e.ack| % 256), LengthByte(|e.ack| / 256)] + e.ack
  }

  /** The body as it lies in flash: the payload, then the zeros of the fixed-size buffer. */
  function Record(e: Entry): Bytes
    requires Fits(e)
  {
    Payload(e) + Zeros(BODY - |Payload(e)|)
  }

  /** The checksum was taken over the payload; the loader takes it over the whole body. */
  predicate ChecksumHolds(e: Entry)
    requires Fits(e)
  {
    Checksum(Record(e)) == Checksum(Payload(e))
  }

  /** What the loader makes of a slot. */
  function Recovered(s: Slot): Option<Entry> {
    if s.Committed? && Fits(s.e) && ChecksumHolds(s.e) then Some(s.e) else None
  }

  // ---- The calls ---------------------------------------------------------------------

  function Find(ram: seq<Option<Entry>>, id: Bytes): (r: Option<nat>)
    ensures r.Some? ==> r.value < |ram| && ram[r.value].Some? && ram[r.value].value.id == id
    ensures r.Some? ==> forall k | 0 <= k < r.value && ram[k].Some? :: ram[k].value.id != id
    ensures r.None? ==> forall k | 0 <= k < |ram| && ram[k].Some? :: ram[k].value.id != id
  {
    if ram == [] then None
    else if ram[0].Some? && ram[0].value.id == id then Some(0)
    else
      match Find(ram[1..], id)
      case None => None
      case Some(k) => Some(k + 1)
  }

  /** Phase 1 writes the record uncommitted, phase 2 the same record committed. */
  function WriteSlot(was: Slot, e: Entry, w: Writes): (Slot, bool) {
    match w.first
    case Lost => (was, false)
    case Landed => (Torn(Stored(e)), false)
    case Done =>
      match w.second
      case Lost => (Torn(Stored(e)), false)
      case Landed => (Committed(Stored(e)), false)
      case Done => (Committed(Stored(e)), true)
  }

  function StoreNew(s: Store, e: Entry, w: Writes): (r: (Store, bool))
    requires Valid(s)
    ensures Valid(r.0)
  {
    var (slot, ok) := WriteSlot(s.nvs[s.next], e, w);
    var s' := s.(nvs := s.nvs[s.next := slot]);
    if !ok then (s', false)
    else
      (s'.(ram := s.ram[s.next := Some(e)], next := (s.next + 1) % SIZE,
           size := if s.next >= s.size then s.next + 1 else s.size), true)
  }

  function StoreTransaction(s: Store, locked: bool, e: Entry, w: Writes): (r: (Store, bool))
    requires Valid(s)
    ensures Valid(r.0)
  {
    if !locked then (s, false)
    else
      match Find(s.ram, e.id)
      case Some(i) => (s, s.ram[i].value.hash == e.hash)
      case None => StoreNew(s, e, w)
  }

  function UpdateAck(s: Store, locked: bool, e: Entry, w: Writes): (r: (Store, bool))
    requires Valid(s)
    ensures Valid(r.0)
  {
    if !locked then (s, false)
    else
      match Find(s.ram, e.id)
      case None => StoreNew(s, e, w)
      case Some(i) =>
        if s.ram[i].value.hash != e.hash then (s, false)
        else
          var (slot, ok) := WriteSlot(s.nvs[i], e, w);
          var s' := s.(nvs := s.nvs[i := slot]);
          if ok then (s'.(ram := s.ram[i := Some(e)]), true) else (s', false)
  }

  function Decide(s: Store, locked: bool, id: Bytes, hash: Bytes): Decision {
    if !locked then Unavailable
    else
      match Find(s.ram, id)
      case None => New
      case Some(i) => if s.ram[i].value.hash == hash then Duplicate(s.ram[i].value.ack) else Conflict
  }

  /** One past the last occupied slot. */
  function Extent(ram: seq<Option<Entry>>): (n: nat)
    ensures n <= |ram|
    ensures forall i | 0 <= i < |ram| && ram[i].Some? :: i < n
    ensures n > 0 ==> ram[n - 1].Some?
  {
    if ram == [] then 0
    else if ram[|ram| - 1].Some? then |ram|
    else Extent(ram[..|ram| - 1])
  }

  function Boot(nvs: seq<Slot>, opens: bool): Store
    requires |nvs| == SIZE
  {
    if !opens then Store(seq(SIZE, _ => None), 0, 0, nvs)
    else
      var ram := seq(SIZE, i requires 0 <= i < SIZE => Recovered(nvs[i]));
      Store(ram, Extent(ram), Extent(ram) % SIZE, nvs)
  }

  lemma FindFirst(ram: seq<Option<Entry>>, id: Bytes, i: nat)
    requires i < |ram| && ram[i].Some? && ram[i].value.id == id
    requires forall k | 0 <= k < i && ram[k].Some? :: ram[k].value.id != id
    ensures Find(ram, id) == Some(i)
  {
  }

  lemma FindNone(ram: seq<Option<Entry>>, id: Bytes)
    requires forall k | 0 <= k < |ram| && ram[k].Some? :: ram[k].value.id != id
    ensures Find(ram, id) == None
  {
  }

  lemma ReloadIsValid(ram: seq<Option<Entry>>, nvs: seq<Slot>)
    requires |nvs| == SIZE && |ram| == SIZE
    ensures Valid(Store(ram, Extent(ram), Extent(ram) % SIZE, nvs))
  {
  }

  lemma BootIsValid(nvs: seq<Slot>, opens: bool)
    requires |nvs| == SIZE
    ensures Valid(Boot(nvs, opens))
  {
    if opens {
      ReloadIsValid(Boot(nvs, true).ram, nvs);
    }
  }

  lemma FillStep(want: seq<Option<Entry>>, i: nat)
    requires i < |want|
    ensures (want[..i] + seq(|want| - i, _ => None))[i := want[i]] == want[..i + 1] + seq(|want| - (i + 1), _ => None)
  {
  }

  lemma ExtentStep(want: seq<Option<Entry>>, i: nat)
    requires i < |want|
    ensures Extent(want[..i + 1]) == if want[i].Some? then i + 1 else Extent(want[..i])
  {
    assert want[..i + 1][..i] == want[..i];
  }
}
