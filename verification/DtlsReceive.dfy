/** What the receiving side does with handshake fragments, on values: the seven-slot ring of
    messages being reassembled, the fragment filter, and message release (section 4.2.2 and
    4.2.3 of RFC 6347). `DtlsReceiver` implements these functions on the heap. */
module DtlsReceive {
  import opened Common
  import opened DtlsFragment

  const MAX_FLIGHT: nat := 7

  /** A message being reassembled: the bytes received so far, by position, and the epochs of the
      records they came in. */
  datatype Incoming = Incoming(typ: Byte, seqNo: Uint16, msgLen: nat, got: map<nat, Byte>, epochs: set<nat>)

  predicate Complete(m: Incoming) {
    m.got.Keys == Range(0, m.msgLen)
  }

  /** The alert an error is answered with; `NoAlert` when there is nothing to send. */
  datatype Alert = DecodeError | IllegalParameter | UnexpectedMessage | InternalError | RecordOverflow | NoAlert

  const NO_MESSAGES: seq<Option<Incoming>> := [None, None, None, None, None, None, None]

  /** The ring: seven slots. */
  type Ring = s: seq<Option<Incoming>> | |s| == MAX_FLIGHT witness NO_MESSAGES

  datatype Receiver = Receiver(readSeq: Uint16, epoch: Uint16, slots: Ring, hasMessage: bool, hasCcs: bool)

  function Slot(n: nat): (i: nat)
    ensures i < MAX_FLIGHT
  {
    n % MAX_FLIGHT
  }

  const INITIAL: Receiver := Receiver(0, 0, NO_MESSAGES, false, false)

  /** The positions a fragment fills. */
  function Pieces(f: Fragment): (m: map<nat, Byte>)
    ensures m.Keys == Range(f.fragOff, f.fragOff + |f.body|)
  {
    var span := Range(f.fragOff, f.fragOff + |f.body|);
    map i | i in span :: f.body[i - f.fragOff]
  }

  /** Copying a fragment's body in and marking its range; a complete message is left alone. */
  function Merge(m: Incoming, f: Fragment, epoch: nat): Incoming {
    if Complete(m) then m
    else m.(got := m.got + Pieces(f), epochs := m.epochs + {epoch})
  }

  predicate InBounds(maxLen: nat, f: Fragment) {
    f.fragOff + |f.body| <= f.msgLen && f.msgLen <= maxLen
  }

  /** dtls1_get_incoming_message's refusals: outside the ring, or at odds with the message begun. */
  function LookupAlert(r: Receiver, f: Fragment): Option<Alert>
  {
    if f.seqNo < r.readSeq || f.seqNo - r.readSeq >= MAX_FLIGHT then Some(InternalError)
    else match r.slots[Slot(f.seqNo)]
      case Some(m) => if m.typ != f.typ || m.msgLen != f.msgLen then Some(IllegalParameter) else None
      case None => None
  }

  /** The message a fragment belongs to, begun if need be. */
  function Looked(r: Receiver, f: Fragment): Incoming
    requires f.seqNo < U16
  {
    match r.slots[Slot(f.seqNo)]
    case Some(m) => m
    case None => Incoming(f.typ, f.seqNo, f.msgLen, map[], {})
  }

  /** One turn of dtls1_open_handshake's loop. */
  function AddFragment(r: Receiver, maxLen: nat, f: Fragment): (res: (Receiver, Option<Alert>))
    requires f.seqNo < U16
    ensures res.0 == r.(slots := res.0.slots)
    ensures res.1.Some? ==> res.0 == r
  {
    if !InBounds(maxLen, f) then (r, Some(IllegalParameter))
    else if r.epoch == 1 && f.seqNo != r.readSeq then (r, Some(UnexpectedMessage))
    else if f.seqNo < r.readSeq || f.seqNo > r.readSeq + MAX_FLIGHT then (r, None)
    else if LookupAlert(r, f).Some? then (r, LookupAlert(r, f))
    else (r.(slots := r.slots[Slot(f.seqNo) := Some(Merge(Looked(r, f), f, r.epoch))]), None)
  }

  /** dtls1_open_handshake on the body of one handshake record: fragments are taken until the
      record ends or one of them is an error; what came before the error stays. */
  function OpenRecord(r: Receiver, maxLen: nat, record: seq<Byte>): (res: (Receiver, Option<Alert>))
    ensures res.0 == r.(slots := res.0.slots)
    decreases |record|
  {
    if record == [] then (r, None)
    else match ParseFragment(record)
      case None => (r, Some(DecodeError))
      case Some(p) =>
        ParsedFits(record);
        var (next, alert) := AddFragment(r, maxLen, p.0);
        if alert.Some? then (next, alert) else OpenRecord(next, maxLen, p.1)
  }

  const CCS_PAYLOAD: seq<Byte> := [1]

  datatype Outcome = Success | Discard | CloseNotify | Error(alert: Alert)

  function FromAlert(alert: Option<Alert>): Outcome {
    if alert.None? then Success else Error(alert.value)
  }

  /** Before any key change the read cipher is the null cipher. */
  predicate NullCipher(r: Receiver) {
    r.epoch == 0
  }

  /** dtls1_open_handshake on a record that dtls_open_record has handed on, alerts having been dealt
      with there. */
  function OpenHandshake(r: Receiver, maxLen: nat, typ: ContentType, record: seq<Byte>): (res: (Receiver, Outcome))
  {
    match typ
    case ApplicationData => (r, if NullCipher(r) then Error(UnexpectedMessage) else Discard)
    case ChangeCipherSpec =>
      if !NullCipher(r) then (r, Error(UnexpectedMessage))
      else if record != CCS_PAYLOAD then (r, Error(IllegalParameter))
      else (r.(hasCcs := true), Success)
    case HandshakeData =>
      var (next, alert) := OpenRecord(r, maxLen, record);
      (next, FromAlert(alert))
    case AlertRecord => (r, Error(UnexpectedMessage))
  }

  /** dtls1_is_current_message_complete. */
  predicate CurrentComplete(r: Receiver)
  {
    r.slots[Slot(r.readSeq)].Some? && Complete(r.slots[Slot(r.readSeq)].value)
  }

  /** A complete handshake message as handed to the handshake code. */
  datatype Message = Message(typ: Byte, body: seq<Byte>)

  function BodyOf(m: Incoming): (b: seq<Byte>)
    requires Complete(m)
    ensures |b| == m.msgLen
    ensures forall i: nat | i < m.msgLen :: b[i] == m.got[i]
  {
    seq(m.msgLen, i requires 0 <= i < m.msgLen => m.got[i])
  }

  /** dtls1_get_message's out-parameter. */
  function CurrentMessage(r: Receiver): Message
    requires CurrentComplete(r)
  {
    var m := r.slots[Slot(r.readSeq)].value;
    Message(m.typ, BodyOf(m))
  }

  function GetMessage(r: Receiver): Receiver
  {
    if CurrentComplete(r) then r.(hasMessage := true) else r
  }

  /** dtls1_next_message: the 16-bit read sequence number wraps. */
  function NextMessage(r: Receiver): (n: Receiver)
  {
    r.(slots := r.slots[Slot(r.readSeq) := None], readSeq := (r.readSeq + 1) % U16, hasMessage := false)
  }

  /** dtls_has_unprocessed_handshake_data. */
  predicate HasUnprocessed(r: Receiver)
  {
    || r.hasCcs
    || exists i: nat :: i < MAX_FLIGHT && !(r.hasMessage && i == Slot(r.readSeq)) && r.slots[i].Some?
  }

  /** dtls1_set_read_state: refused while handshake data is left over. */
  function SetReadState(r: Receiver): (res: Option<Receiver>)
  {
    if HasUnprocessed(r) then None else Some(r.(epoch := (r.epoch + 1) % U16))
  }
}
