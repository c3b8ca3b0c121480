/** The bytes of a journal record: what saving lays down and what the loader reads out of them. */
module JournalRecord {
  import opened Common
  import Crc32
  import opened JournalModel

  /** What a C string constructor sees of a buffer: the bytes ahead of the first zero. */
  function Visible(s: Bytes): (t: Bytes)
    ensures t <= s
  {
    if s == [] || s[0] == 0 then [] else [s[0]] + Visible(s[1..])
  }

  /** A field of n bytes as the loader reads it. */
  function Field(s: Bytes, n: nat): Bytes {
    Visible(s)[..Min(n, |Visible(s)|)]
  }

  function Number(b: bv8): (n: nat)
    ensures n < 256
  {
    b as int
  }

  /** The loader's parser over the body of a record; None where it gives the slot up. */
  function Parse(body: Bytes): Option<Entry>
    requires |body| == 1192
  {
    var idLen := Number(body[0]);
    if idLen > 64 then None
    else
      var rest := body[1 + idLen..];
      var hashLen := Number(rest[0]);
      if hashLen > 64 then None
      else
        var tail := rest[1 + hashLen..];
        var ackLen := Number(tail[0]) + 256 * Number(tail[1]);
        if ackLen > 1024 then None
        else Some(Entry(Field(body[1..], idLen), Field(rest[1..], hashLen), Field(tail[2..], ackLen)))
  }

  predicate NoZero(s: Bytes) {
    forall i | 0 <= i < |s| :: s[i] != 0
  }

  lemma {:induction false} VisibleIff(s: Bytes)
    ensures Visible(s) == s <==> NoZero(s)
    decreases s
  {
    if s != [] {
      VisibleIff(s[1..]);
      if NoZero(s) {
        assert s == [s[0]] + s[1..];
      } else if s[0] != 0 {
        assert !NoZero(s[1..]) by {
          var i :| 0 <= i < |s| && s[i] == 0;
          assert s[1..][i - 1] == 0;
        }
        assert Visible(s)[1..] == Visible(s[1..]);
      }
    }
  }

  /** A field is read back up to its first zero byte, whatever follows it. */
  lemma {:induction false} FieldReads(s: Bytes, rest: Bytes)
    ensures Field(s + rest, |s|) == Visible(s)
    decreases s
  {
    if s != [] && s[0] != 0 {
      FieldReads(s[1..], rest);
      assert (s + rest)[1..] == s[1..] + rest;
    }
  }

  lemma NibblesCastBack(high: int, low: int)
    requires 0 <= high < 16 && 0 <= low < 16
    ensures ((16 * high + low) as bv8) as int == 16 * high + low
  {
  }

  lemma LengthReads(n: nat)
    requires n < 256
    ensures Number(LengthByte(n)) == n
  {
    NibblesCastBack(n / 16, n % 16);
    assert n == 16 * (n / 16) + n % 16;
  }

  /** The parts of a body. */
  function Laid(e: Entry, zeros: Bytes): Bytes
    requires Fits(e)
  {
    [LengthByte(|e.id|)] + e.id + HashOn(e, zeros)
  }

  function HashOn(e: Entry, zeros: Bytes): Bytes
    requires Fits(e)
  {
    [LengthByte(|e.hash|)] + e.hash + AckOn(e, zeros)
  }

  function AckOn(e: Entry, zeros: Bytes): Bytes
    requires Fits(e)
  {
    [LengthByte(|e.ack| % 256), LengthByte(|e.ack| / 256)] + e.ack + zeros
  }

  lemma RecordIsLaid(e: Entry)
    requires Fits(e)
    ensures |Record(e)| == 1192 && Record(e) == Laid(e, Crc32.Zeros(1192 - |Payload(e)|))
  {
    var z := Crc32.Zeros(1192 - |Payload(e)|);
    assert Payload(e) + z == Laid(e, z);
  }

  lemma AckReads(e: Entry, zeros: Bytes)
    requires Fits(e)
    ensures var tail := AckOn(e, zeros);
            && |tail| >= 2 && Number(tail[0]) + 256 * Number(tail[1]) == |e.ack|
            && Field(tail[2..], |e.ack|) == Visible(e.ack)
  {
    var tail := AckOn(e, zeros);
    LengthReads(|e.ack| % 256);
    LengthReads(|e.ack| / 256);
    assert tail[2..] == e.ack + zeros;
    FieldReads(e.ack, zeros);
  }

  lemma HashReads(e: Entry, zeros: Bytes)
    requires Fits(e)
    ensures var rest := HashOn(e, zeros);
            && |rest| >= 1 + |e.hash| && Number(rest[0]) == |e.hash|
            && Field(rest[1..], |e.hash|) == Visible(e.hash) && rest[1 + |e.hash|..] == AckOn(e, zeros)
  {
    var rest := HashOn(e, zeros);
    LengthReads(|e.hash|);
    assert rest[1..] == e.hash + AckOn(e, zeros);
    FieldReads(e.hash, AckOn(e, zeros));
  }

  lemma IdReads(e: Entry, zeros: Bytes)
    requires Fits(e)
    ensures var body := Laid(e, zeros);
            && |body| >= 1 + |e.id| && Number(body[0]) == |e.id|
            && Field(body[1..], |e.id|) == Visible(e.id) && body[1 + |e.id|..] == HashOn(e, zeros)
  {
    var body := Laid(e, zeros);
    LengthReads(|e.id|);
    assert body[1..] == e.id + HashOn(e, zeros);
    FieldReads(e.id, HashOn(e, zeros));
  }

  /** Every record parses, to the entry with each text cut at its first zero byte. */
  lemma RecordParses(e: Entry)
    requires Fits(e)
    ensures |Record(e)| == 1192
    ensures Parse(Record(e)) == Some(Entry(Visible(e.id), Visible(e.hash), Visible(e.ack)))
  {
    var zeros := Crc32.Zeros(1192 - |Payload(e)|);
    RecordIsLaid(e);
    IdReads(e, zeros);
    HashReads(e, zeros);
    AckReads(e, zeros);
  }

  /** So a record reads back as what was laid down exactly if no text has a zero byte in it. */
  lemma RecordReadsBackIff(e: Entry)
    requires Fits(e)
    ensures |Record(e)| == 1192
    ensures Parse(Record(e)) == Some(e) <==> NoZero(e.id) && NoZero(e.hash) && NoZero(e.ack)
  {
    RecordParses(e);
    VisibleIff(e.id);
    VisibleIff(e.hash);
    VisibleIff(e.ack);
  }

  /** A prefix of `full`, of that many bytes. */
  predicate Begins(s: Bytes, full: Bytes, n: nat) {
    s <= full && |s| == n
  }

  /**
   * What is laid down of an entry: the lengths of id and hash are taken modulo 256 and then capped
   * at 64, that of the ACK modulo 65536 and at 1024; so all of it exactly if it keeps within the caps.
   */
  lemma StoredWholeIff(e: Entry)
    ensures Fits(Stored(e))
    ensures Begins(Stored(e).id, e.id, Min(|e.id| % 256, 64)) && Begins(Stored(e).hash, e.hash, Min(|e.hash| % 256, 64))
    ensures Begins(Stored(e).ack, e.ack, Min(|e.ack| % 65536, 1024))
    ensures Stored(e) == e <==> |e.id| <= 64 && |e.hash| <= 64 && |e.ack| <= 1024
  {
  }

  /** From the RAM entry saved to the RAM entry loaded, through the bytes. */
  lemma SavedReadsBackIff(e: Entry)
    ensures |Record(Stored(e))| == 1192
    ensures Parse(Record(Stored(e))) == Some(e) <==>
              && |e.id| <= 64 && |e.hash| <= 64 && |e.ack| <= 1024
              && NoZero(e.id) && NoZero(e.hash) && NoZero(e.ack)
  {
    StoredWholeIff(e);
    RecordReadsBackIff(Stored(e));
    RecordParses(Stored(e));
  }
}
