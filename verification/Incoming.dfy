/**
 * Receiving DTLS handshake messages, as functions on values (d1_both.cc, dtls_method.cc): the ring
 * of partly received messages, in-order delivery, and the rule for changing the read epoch.
 */
module Incoming {
  import opened Bytes
  import opened DtlsRecord
  import opened Fragments
  import opened Reassembly

  const FLIGHT: nat := 7  // SSL_MAX_HANDSHAKE_FLIGHT
  const MT_CCS: byte := 1

  datatype AlertCode = InternalError | IllegalParameter | UnexpectedMessage | DecodeError

  /** The receiving part of DTLS1_STATE. Slot `seq % FLIGHT` of the ring is for message seq. */
  datatype Inbox = Inbox(readSeq: nat, ring: seq<Option<Partial>>, rEpoch: nat, hasCcs: bool, hasMessage: bool)

  datatype Outcome = Stored(b: Inbox) | Rejected(b: Inbox, alert: AlertCode)

  function Empty(): Inbox
  {
    Inbox(0, seq(FLIGHT, i => None), 0, false, false)
  }

  function Current(b: Inbox): nat
  {
    b.readSeq % FLIGHT
  }

  /** dtls1_is_current_message_complete */
  predicate CurrentComplete(b: Inbox)
    requires |b.ring| == FLIGHT
  {
    var p := b.ring[Current(b)];
    p.Some? && Complete(p.value)
  }

  /** dtls1_hm_fragment_new */
  function NewPartial(f: Fragment, epoch: nat): (p: Partial)
    ensures |p.body| == |p.have| == f.msgLen
  {
    Partial(f.kind, f.seq_, seq(f.msgLen, i => 0), seq(f.msgLen, i => false), {epoch})
  }

  /** The slots hold messages of the flight expected next, each in its own slot. */
  predicate Ring(b: Inbox)
  {
    && |b.ring| == FLIGHT
    && (forall i :: 0 <= i < FLIGHT && b.ring[i].Some? ==>
          var p := b.ring[i].value;
          p.seq_ % FLIGHT == i && b.readSeq <= p.seq_ < b.readSeq + FLIGHT && |p.have| == |p.body|)
    && (b.hasMessage ==> CurrentComplete(b))
  }

  lemma RingCurrent(b: Inbox)
    requires Ring(b) && b.hasMessage
    ensures CurrentComplete(b)
  {
  }

  /** One fragment: the body of the loop in dtls1_open_handshake. The upper bound lets message
    * readSeq + FLIGHT through to dtls1_get_incoming_message, which has no slot for it. */
  function Insert(b: Inbox, f: Fragment, maxLen: nat): (o: Outcome)
    requires |b.ring| == FLIGHT
    requires forall i :: 0 <= i < FLIGHT && b.ring[i].Some? ==> |b.ring[i].value.have| == |b.ring[i].value.body|
  {
    if f.off > f.msgLen || f.off + |f.body| > f.msgLen || f.msgLen > maxLen then Rejected(b, IllegalParameter)
    else if b.rEpoch == 1 && f.seq_ != b.readSeq then Rejected(b, UnexpectedMessage)
    else if f.seq_ < b.readSeq || f.seq_ > b.readSeq + FLIGHT then Stored(b)
    else if f.seq_ - b.readSeq >= FLIGHT then Rejected(b, InternalError)
    else
      var i := f.seq_ % FLIGHT;
      var p := if b.ring[i].Some? then b.ring[i].value else NewPartial(f, b.rEpoch);
      if p.kind != f.kind || |p.body| != f.msgLen then Rejected(b, IllegalParameter)
      else if Complete(p) then Stored(b.(ring := b.ring[i := Some(p)]))
      else Stored(b.(ring := b.ring[i := Some(Fill(p, f.off, f.body, b.rEpoch))]))
  }

  /** All fragments of a handshake record. */
  function InsertAll(b: Inbox, s: seq<byte>, maxLen: nat): (o: Outcome)
    requires Ring(b)
    ensures Ring(o.b) && o.b.readSeq == b.readSeq && o.b.rEpoch == b.rEpoch
    decreases |s|
  {
    if s == [] then Stored(b)
    else
      match ParseFragment(s)
      case Fail => Rejected(b, DecodeError)
      case Got(f, rest) =>
        InsertKeepsRing(b, f, maxLen);
        match Insert(b, f, maxLen)
        case Rejected(b', a) => Rejected(b', a)
        case Stored(b') => InsertAll(b', rest, maxLen)
  }

  /** A fragment meets, in its slot, only parts of the same message: the ring keeps its shape and
    * the slot's sequence number is the fragment's. */
  lemma InsertKeepsRing(b: Inbox, f: Fragment, maxLen: nat)
    requires Ring(b)
    ensures var o := Insert(b, f, maxLen);
            Ring(o.b) && o.b == b.(ring := o.b.ring)
    ensures b.readSeq <= f.seq_ < b.readSeq + FLIGHT && b.ring[f.seq_ % FLIGHT].Some? ==>
              b.ring[f.seq_ % FLIGHT].value.seq_ == f.seq_
  {
    hide Complete;
    if b.readSeq <= f.seq_ < b.readSeq + FLIGHT && b.ring[f.seq_ % FLIGHT].Some? {
      SameSlot(b.readSeq, f.seq_, b.ring[f.seq_ % FLIGHT].value.seq_);
    }
  }

  /** Two sequence numbers of one flight in the same slot are equal. */
  lemma SameSlot(readSeq: nat, m: nat, n: nat)
    requires readSeq <= m < readSeq + FLIGHT && readSeq <= n < readSeq + FLIGHT && m % FLIGHT == n % FLIGHT
    ensures m == n
  {
  }

  lemma RingLengths(b: Inbox)
    requires Ring(b)
    ensures |b.ring| == FLIGHT
    ensures forall i :: 0 <= i < FLIGHT && b.ring[i].Some? ==> |b.ring[i].value.have| == |b.ring[i].value.body|
  {
  }

  datatype Opened = Opened(b: Inbox, ret: Verdict)
  datatype Verdict = Delivered | Dropped | Fatal(alert: AlertCode)

  /** dtls1_open_handshake after the record layer has let a record through. */
  function OpenHandshake(b: Inbox, kind: nat, data: seq<byte>, nullCipher: bool, maxLen: nat): (o: Opened)
    requires Ring(b)
    ensures Ring(o.b) && o.b.readSeq == b.readSeq && o.b.rEpoch == b.rEpoch
  {
    if kind == RT_APPLICATION_DATA then if nullCipher then Opened(b, Fatal(UnexpectedMessage)) else Opened(b, Dropped)
    else if kind == RT_CHANGE_CIPHER_SPEC then
      if !nullCipher then Opened(b, Fatal(UnexpectedMessage))
      else if data != [MT_CCS] then Opened(b, Fatal(IllegalParameter))
      else Opened(b.(hasCcs := true), Delivered)
    else if kind == RT_HANDSHAKE then
      match InsertAll(b, data, maxLen)
      case Stored(b') => Opened(b', Delivered)
      case Rejected(b', a) => Opened(b', Fatal(a))
    else Opened(b, Fatal(UnexpectedMessage))
  }

  /** dtls1_get_message */
  function GetMessage(b: Inbox): Option<Msg>
    requires Ring(b)
  {
    if CurrentComplete(b) then
      var p := b.ring[Current(b)].value;
      Some(Msg(p.kind, p.body))
    else None
  }

  /** dtls1_next_message */
  function NextMessage(b: Inbox): (b': Inbox)
    requires Ring(b) && b.hasMessage
    ensures Ring(b')
  {
    b.(ring := b.ring[Current(b) := None], readSeq := b.readSeq + 1, hasMessage := false)
  }

  /** dtls_has_unprocessed_handshake_data */
  predicate HasUnprocessed(b: Inbox)
    requires |b.ring| == FLIGHT
  {
    b.hasCcs || exists i :: 0 <= i < FLIGHT && !(b.hasMessage && i == Current(b)) && b.ring[i].Some?
  }

  /** dtls1_set_read_state */
  function SetReadState(b: Inbox): Option<Inbox>
    requires |b.ring| == FLIGHT
  {
    if HasUnprocessed(b) then None else Some(b.(rEpoch := b.rEpoch + 1))
  }

  // ---------------------------------------------------------------- epoch purity

  /** Every buffered fragment, except those of the message being read, came in the current epoch. */
  predicate Pure(b: Inbox)
    requires |b.ring| == FLIGHT
  {
    forall i :: 0 <= i < FLIGHT && b.ring[i].Some? && !(b.hasMessage && i == Current(b)) ==>
                  b.ring[i].value.epochs == {b.rEpoch}
  }

  lemma {:induction false} InsertAllKeepsPure(b: Inbox, s: seq<byte>, maxLen: nat)
    requires Ring(b) && Pure(b)
    ensures Pure(InsertAll(b, s, maxLen).b)
    decreases |s|
  {
    hide Complete;
    if s != [] && ParseFragment(s).Got? {
      var Got(f, rest) := ParseFragment(s);
      InsertKeepsRing(b, f, maxLen);
      InsertKeepsPure(b, f, maxLen);
      if Insert(b, f, maxLen).Stored? {
        InsertAllKeepsPure(Insert(b, f, maxLen).b, rest, maxLen);
      }
    }
  }

  lemma InsertKeepsPure(b: Inbox, f: Fragment, maxLen: nat)
    requires Ring(b) && Pure(b)
    ensures Pure(Insert(b, f, maxLen).b)
  {
    hide Complete;
  }

  lemma OpenKeepsPure(b: Inbox, kind: nat, data: seq<byte>, nullCipher: bool, maxLen: nat)
    requires Ring(b) && Pure(b)
    ensures Pure(OpenHandshake(b, kind, data, nullCipher, maxLen).b)
  {
    if kind == RT_HANDSHAKE { InsertAllKeepsPure(b, data, maxLen); }
  }

  /** Moving on drops the only message that may be older than the epoch. */
  lemma NextKeepsPure(b: Inbox)
    requires Ring(b) && Pure(b) && b.hasMessage
    ensures Pure(NextMessage(b))
  {
  }

  /** An epoch change is let through only when nothing of the old epoch is left to be read later. */
  lemma SetReadStateKeepsPure(b: Inbox)
    requires Ring(b) && Pure(b) && SetReadState(b).Some?
    ensures Ring(SetReadState(b).value) && Pure(SetReadState(b).value)
    ensures !b.hasCcs && forall i :: 0 <= i < FLIGHT && b.ring[i].Some? ==> b.hasMessage && i == Current(b)
  {
  }

  /** The comment on the range check says fragments too far in the future are ignored. The one
    * message at distance FLIGHT is not: it is a fatal error. */
  lemma NotIgnoredAtDistanceFlight(b: Inbox, f: Fragment, maxLen: nat)
    requires Ring(b) && b.rEpoch != 1
    requires f.off + |f.body| <= f.msgLen <= maxLen && f.seq_ >= b.readSeq + FLIGHT
    ensures Insert(b, f, maxLen) == Stored(b) <==> f.seq_ != b.readSeq + FLIGHT
    ensures f.seq_ == b.readSeq + FLIGHT ==> Insert(b, f, maxLen) == Rejected(b, InternalError)
  {
  }
}
