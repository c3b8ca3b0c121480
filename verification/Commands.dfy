/** The checks every inbound command passes before the journal is asked. */
module Commands {
  import opened Common
  import opened JournalModel

  const PROTOCOL_VERSION: int := 1
  const MAX_BODY: nat := 16384

  /**
   * A parsed command. `kind` and `action` are already in lower case; `hash` is
   * what canonicalisation makes of the document, None when it refuses it.
   */
  datatype Document = Document(
    kind: string, action: string, tid: Bytes, requestId: Bytes, version: Option<int>,
    issuedAt: Option<u32>, expiresAt: Option<u32>, fieldsAllowed: bool, known: bool, hash: Option<Bytes>)

  datatype Code = BadSchema | Rejected | JournalUnavailable | Conflicting | DurabilityFailure | AlreadyDone

  /** What goes out on the ACK topic: a stored text byte for byte, or a notice written on the spot. */
  datatype Publication = Text(ack: Bytes) | Notice(tid: Bytes, ok: bool, code: Code)

  predicate IdByte(c: bv8) {
    (0x61 <= c <= 0x7A) || (0x41 <= c <= 0x5A) || (0x30 <= c <= 0x39) || c == 0x2D || c == 0x5F
  }

  predicate ValidId(t: Bytes) {
    1 <= |t| <= ID_MAX && forall i | 0 <= i < |t| :: IdByte(t[i])
  }

  predicate EnvelopeComplete(d: Document) {
    var tid := if d.tid == [] then d.requestId else d.tid;
    && d.version == Some(PROTOCOL_VERSION)
    && ValidId(tid)
    && (d.requestId == [] || ValidId(d.requestId))
    && d.issuedAt.Some? && d.issuedAt.value != 0
    && d.expiresAt.Some? && d.expiresAt.value > d.issuedAt.value
  }

  /** Without a clock an energizing command counts as expired and any other as fresh. */
  predicate Expired(d: Document, now: u32, energizing: bool) {
    if d.expiresAt.None? || d.expiresAt.value == 0 || now == 0 then energizing && now == 0
    else d.expiresAt.value < now
  }

  predicate ValidVersion(d: Document) {
    d.version == Some(PROTOCOL_VERSION)
  }
}
