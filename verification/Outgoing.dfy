/**
 * Sending DTLS handshake flights, as functions on values (d1_both.cc, dtls_record.cc,
 * dtls_method.cc): messages are cut into fragments that fit a packet, sealed under the epoch they
 * were queued in, with progress that can be resumed or rewound.
 */
module Outgoing {
  import opened Bytes
  import opened Fragments
  import opened DtlsRecord
  import opened Incoming

  const SEQ_LIMIT: nat := 0x1_0000_0000_0000  // record sequence numbers have 48 bits

  /** A write cipher: the identity on payloads, adding an explicit nonce, a tag and, for block
    * ciphers, padding. The null cipher adds nothing. */
  datatype Aead = Aead(nonceLen: nat, tagLen: nat, block: nat)
  {
    function Growth(n: nat): (g: nat)
      ensures nonceLen + tagLen <= g <= MaxOverhead()
    {
      nonceLen + tagLen + if block == 0 then 0 else block - (n + tagLen) % block
    }

    function MaxOverhead(): nat
    {
      nonceLen + tagLen + block
    }
  }

  /** DTLS_OUTGOING_MESSAGE */
  datatype Message = Message(data: seq<byte>, epoch: nat, isCcs: bool)

  /** A sealed record: its type, epoch, 48-bit sequence number, payload, and length on the wire. */
  datatype Sealed = Sealed(kind: nat, epoch: nat, number: nat, payload: seq<byte>, size: nat)

  /** The sending part of DTLS1_STATE. `log` holds every record sealed so far, sent or
    * not; `sent` what the transport has taken since the flight was started or rewound, and `skipped`
    * says whether a packet of it failed with messages already sealed into it. */
  datatype Outbox = Outbox(
    messages: seq<Message>, written: nat, offset: nat, complete: bool, hasReply: bool,
    writeSeq: nat, wEpoch: nat, number: nat, lastNumber: nat, aead: Aead, lastAead: Aead,
    log: seq<Sealed>, sent: seq<Sealed>, skipped: bool)

  predicate OutboxOk(o: Outbox)
  {
    && o.written <= |o.messages| <= FLIGHT
    && o.number < SEQ_LIMIT && o.lastNumber < SEQ_LIMIT
  }

  // ---------------------------------------------------------------- queueing

  /** dtls_clear_outgoing_messages */
  function Clear(o: Outbox): Outbox
  {
    o.(messages := [], written := 0, offset := 0, complete := false, hasReply := false, sent := [], skipped := false)
  }

  /** add_outgoing; None on error. */
  function AddOutgoing(o: Outbox, isCcs: bool, data: seq<byte>): Option<Outbox>
  {
    var o1 := if o.complete then Clear(o) else o;
    if |o1.messages| >= FLIGHT || |data| > 0xFFFF_FFFF then None
    else Some(o1.(messages := o1.messages + [Message(data, o.wEpoch, isCcs)],
                  writeSeq := if isCcs then o.writeSeq else o.writeSeq + 1))
  }

  /** dtls1_set_write_state */
  function SetWriteState(o: Outbox, aead: Aead): Outbox
  {
    o.(wEpoch := o.wEpoch + 1, lastNumber := o.number, number := 0, lastAead := o.aead, aead := aead)
  }

  // ---------------------------------------------------------------- sealing

  datatype SealResult = SealError | NoProgress | Progress(record: Sealed, whole: bool)

  datatype Step = Step(o: Outbox, ret: SealResult)

  function UsedAead(o: Outbox, previous: bool): Aead
  {
    if previous then o.lastAead else o.aead
  }

  /** The epoch of the next record sealed under the current or the previous epoch. */
  function EpochOf(o: Outbox, previous: bool): nat
    requires previous ==> o.wEpoch >= 1
  {
    if previous then o.wEpoch - 1 else o.wEpoch
  }

  /** Its number. */
  function NumberOf(o: Outbox, previous: bool): nat
  {
    if previous then o.lastNumber else o.number
  }

  /** dtls_seal_record; the sequence counter advances, or fails and restarts, once Seal succeeded. */
  function SealRecord(o: Outbox, kind: nat, payload: seq<byte>, previous: bool, maxOut: nat): (s: Step)
    requires previous ==> o.wEpoch >= 1
    ensures !s.ret.NoProgress?
  {
    var a := UsedAead(o, previous);
    var n := if previous then o.lastNumber else o.number;
    var size := RT_HEADER_LENGTH + |payload| + a.Growth(|payload|);
    if size > maxOut then Step(o, SealError)
    else
      var next := if n + 1 < SEQ_LIMIT then n + 1 else 0;
      var r := Sealed(kind, if previous then o.wEpoch - 1 else o.wEpoch, n, payload, size);
      var o' := (if previous then o.(lastNumber := next) else o.(number := next)).(log := o.log + [r]);
      if next == 0 || size - RT_HEADER_LENGTH >= 0x1_0000 then Step(o', SealError) else Step(o', Progress(r, true))
  }

  /** Sealing changes nothing but the counter it uses. */
  lemma SealRecordStep(o: Outbox, kind: nat, payload: seq<byte>, previous: bool, maxOut: nat)
    requires previous ==> o.wEpoch >= 1
    ensures var s := SealRecord(o, kind, payload, previous, maxOut);
            && s.o == o.(number := s.o.number, lastNumber := s.o.lastNumber, log := s.o.log)
            && (OutboxOk(o) ==> OutboxOk(s.o))
            && (s.ret.Progress? ==>
                  && s.ret.whole && s.ret.record.size <= maxOut
                  && s.ret.record.kind == kind && s.ret.record.payload == payload
                  && s.ret.record.epoch == if previous then o.wEpoch - 1 else o.wEpoch)
  {
  }

  /** The message a queue entry holds, if it is one unfragmented message. */
  function Content(m: Message): Option<Fragment>
  {
    match ParseFragment(m.data)
    case Got(f, rest) => if f.off == 0 && |f.body| == f.msgLen && rest == [] then Some(f) else None
    case Fail => None
  }

  /** The part of seal_next_message that cuts a fragment of f from the current offset. */
  function SealFragment(o: Outbox, f: Fragment, previous: bool, maxOut: nat): Step
    requires previous ==> o.wEpoch >= 1
  {
    var overhead := RT_HEADER_LENGTH + UsedAead(o, previous).MaxOverhead();
    var prefix := RT_HEADER_LENGTH + UsedAead(o, previous).nonceLen;
    if o.offset > |f.body| then Step(o, SealError)
    else if maxOut < HM_HEADER_LENGTH + 1 + overhead || maxOut < prefix then Step(o, NoProgress)
    else
      var left := |f.body| - o.offset;
      var room := maxOut - HM_HEADER_LENGTH - overhead;
      var todo := if left > room then room else left;
      var piece := f.(off := o.offset, body := f.body[o.offset..o.offset + todo]);
      MoveOn(SealRecord(o, RT_HANDSHAKE, Serialize(piece), previous, maxOut), todo, left)
  }

  /** The offset after `todo` of the `left` bytes of a message have been sealed, or not. */
  function MoveOn(s: Step, todo: nat, left: nat): Step
  {
    if !s.ret.Progress? then s
    else if todo == left then Step(s.o.(offset := 0), s.ret)
    else Step(s.o.(offset := s.o.offset + todo), s.ret.(whole := false))
  }

  /** seal_next_message */
  function SealNextMessage(o: Outbox, maxOut: nat): Step
    requires o.written < |o.messages|
  {
    var m := o.messages[o.written];
    var previous := o.wEpoch >= 1 && m.epoch == o.wEpoch - 1;
    if !previous && m.epoch != o.wEpoch then Step(o, SealError)
    else if m.isCcs then
      if maxOut < 1 + RT_HEADER_LENGTH + UsedAead(o, previous).MaxOverhead() then Step(o, NoProgress)
      else SealRecord(o, RT_CHANGE_CIPHER_SPEC, [MT_CCS], previous, maxOut)
    else
      match Content(m)
      case None => Step(o, SealError)
      case Some(f) => SealFragment(o, f, previous, maxOut)
  }

  datatype Packet = Packet(ok: bool, o: Outbox, records: seq<Sealed>)

  /** The loop of seal_next_packet; on an error what was already sealed is lost. */
  function SealLoop(o: Outbox, maxOut: nat, sealed: seq<Sealed>): Packet
    requires o.written <= |o.messages|
    decreases |o.messages| - o.written
  {
    if o.written == |o.messages| then Packet(sealed != [], o, sealed)
    else
      SealKeepsQueue(o, maxOut);
      match SealNextMessage(o, maxOut)
      case Step(o', SealError) => Packet(false, o', sealed)
      case Step(o', NoProgress) => Packet(sealed != [], o', sealed)
      case Step(o', Progress(r, whole)) =>
        if !whole then Packet(true, o', sealed + [r])
        else SealLoop(o'.(written := o'.written + 1), maxOut - r.size, sealed + [r])
  }

  /** What every step leaves alone. */
  predicate KeepsQueue(o: Outbox, s: Step, maxOut: nat)
  {
    && s.o == o.(number := s.o.number, lastNumber := s.o.lastNumber, offset := s.o.offset, log := s.o.log)
    && (OutboxOk(o) ==> OutboxOk(s.o))
    && (s.ret.Progress? ==> s.ret.record.size <= maxOut)
  }

  lemma RecordKeepsQueue(o: Outbox, kind: nat, payload: seq<byte>, previous: bool, maxOut: nat)
    requires previous ==> o.wEpoch >= 1
    ensures KeepsQueue(o, SealRecord(o, kind, payload, previous, maxOut), maxOut)
  {
    hide UsedAead, Aead.Growth;
  }

  lemma FragmentKeepsQueue(o: Outbox, f: Fragment, previous: bool, maxOut: nat)
    requires previous ==> o.wEpoch >= 1
    ensures KeepsQueue(o, SealFragment(o, f, previous, maxOut), maxOut)
  {
    hide Serialize, SealRecord, UsedAead, Aead.MaxOverhead;
    forall payload ensures KeepsQueue(o, SealRecord(o, RT_HANDSHAKE, payload, previous, maxOut), maxOut) {
      RecordKeepsQueue(o, RT_HANDSHAKE, payload, previous, maxOut);
    }
  }

  lemma SealKeepsQueue(o: Outbox, maxOut: nat)
    requires o.written < |o.messages|
    ensures KeepsQueue(o, SealNextMessage(o, maxOut), maxOut)
  {
    hide Content, SealRecord, SealFragment, UsedAead, Aead.MaxOverhead;
    var m := o.messages[o.written];
    var previous := o.wEpoch >= 1 && m.epoch == o.wEpoch - 1;
    RecordKeepsQueue(o, RT_CHANGE_CIPHER_SPEC, [MT_CCS], previous, maxOut);
    if Content(m).Some? { FragmentKeepsQueue(o, Content(m).value, previous, maxOut); }
  }

  /** seal_next_packet */
  function SealNextPacket(o: Outbox, maxOut: nat): Packet
    requires o.written < |o.messages|
  {
    SealLoop(o, maxOut, [])
  }

  // ---------------------------------------------------------------- fragments tile messages

  /** The length of the fragment body in a handshake record. */
  function BodyLen(r: Sealed): nat
  {
    if |r.payload| < HM_HEADER_LENGTH then 0 else |r.payload| - HM_HEADER_LENGTH
  }

  /** The record carries the bytes of message m from `off` on (or is the ChangeCipherSpec), under
    * m's own epoch. */
  predicate Carries(m: Message, off: nat, r: Sealed)
  {
    && r.epoch == m.epoch
    && if m.isCcs then r.kind == RT_CHANGE_CIPHER_SPEC && r.payload == [MT_CCS]
       else
         && r.kind == RT_HANDSHAKE && HM_HEADER_LENGTH <= |r.payload|
         && Content(m).Some?
         && var f := Content(m).value;
            var n := BodyLen(r);
            && off + n <= |f.body|
            && (n > 0 || f.body == [])
            && r.payload == Serialize(f.(off := off, body := f.body[off..off + n]))
  }

  /** The record is the last of its message. */
  predicate Finishes(m: Message, off: nat, r: Sealed)
    requires Carries(m, off, r)
  {
    m.isCcs || off + BodyLen(r) == |Content(m).value.body|
  }

  /** Sending `records` from position (w, off) of the flight leads to position (w', off'): each
    * record continues where the one before it ended. */
  predicate Path(ms: seq<Message>, w: nat, off: nat, records: seq<Sealed>, w': nat, off': nat)
    decreases |records|
  {
    if records == [] then w == w' && off == off'
    else
      && w < |ms|
      && Carries(ms[w], off, records[0])
      && if Finishes(ms[w], off, records[0]) then Path(ms, w + 1, 0, records[1..], w', off')
         else Path(ms, w, off + BodyLen(records[0]), records[1..], w', off')
  }

  lemma {:induction false} PathTrans(ms: seq<Message>, w: nat, off: nat, a: seq<Sealed>, w1: nat, off1: nat, b: seq<Sealed>, w2: nat, off2: nat)
    requires Path(ms, w, off, a, w1, off1) && Path(ms, w1, off1, b, w2, off2)
    ensures Path(ms, w, off, a + b, w2, off2)
    decreases |a|
  {
    hide Carries, Finishes;
    if a == [] {
      assert a + b == b;
    } else {
      assert (a + b)[1..] == a[1..] + b;
      if Finishes(ms[w], off, a[0]) {
        PathTrans(ms, w + 1, 0, a[1..], w1, off1, b, w2, off2);
      } else {
        PathTrans(ms, w, off + BodyLen(a[0]), a[1..], w1, off1, b, w2, off2);
      }
    }
  }

  /** Between messages the offset is zero; a ChangeCipherSpec is never partly sent. */
  predicate Positioned(o: Outbox)
  {
    && (o.written == |o.messages| ==> o.offset == 0)
    && (o.written < |o.messages| && o.messages[o.written].isCcs ==> o.offset == 0)
    && (o.written < |o.messages| && Content(o.messages[o.written]).Some? && o.offset > 0 ==>
          o.offset < |Content(o.messages[o.written]).value.body|)
  }

  lemma PieceCarries(m: Message, off: nat, n: nat, r: Sealed)
    requires !m.isCcs && Content(m).Some? && off + n <= |Content(m).value.body|
    requires n > 0 || Content(m).value.body == []
    requires r.epoch == m.epoch && r.kind == RT_HANDSHAKE
    requires var f := Content(m).value; r.payload == Serialize(f.(off := off, body := f.body[off..off + n]))
    ensures Carries(m, off, r) && BodyLen(r) == n
    ensures Finishes(m, off, r) == (off + n == |Content(m).value.body|)
  {
    hide Content, Serialize;
  }

  /** What one call of seal_next_message has to do with the queue and the record it seals. */
  predicate SealsNext(o: Outbox, s: Step, maxOut: nat)
    requires o.written < |o.messages|
  {
    && OutboxOk(s.o) && s.o == o.(number := s.o.number, lastNumber := s.o.lastNumber, offset := s.o.offset, log := s.o.log)
    && (s.ret.NoProgress? ==> s.o == o)
    && (s.ret.SealError? ==> s.o.offset == o.offset)
    && (s.ret.Progress? ==>
          var m, r := o.messages[o.written], s.ret.record;
          && Carries(m, o.offset, r) && s.ret.whole == Finishes(m, o.offset, r)
          && s.o.offset == (if s.ret.whole then 0 else o.offset + BodyLen(r))
          && r.size <= maxOut && (!s.ret.whole ==> Positioned(s.o)))
  }

  lemma SealFragmentStep(o: Outbox, previous: bool, maxOut: nat)
    requires OutboxOk(o) && Positioned(o) && o.written < |o.messages| && !o.messages[o.written].isCcs
    requires Content(o.messages[o.written]).Some? && (previous ==> o.wEpoch >= 1)
    requires o.messages[o.written].epoch == if previous then o.wEpoch - 1 else o.wEpoch
    ensures SealsNext(o, SealFragment(o, Content(o.messages[o.written]).value, previous, maxOut), maxOut)
  {
    hide Content, Serialize, SealRecord, Carries, Finishes, UsedAead, Aead.MaxOverhead, Positioned, MoveOn, SealsNext;
    var f := Content(o.messages[o.written]).value;
    var overhead := RT_HEADER_LENGTH + UsedAead(o, previous).MaxOverhead();
    if o.offset <= |f.body| && maxOut >= HM_HEADER_LENGTH + 1 + overhead {
      var left, room := |f.body| - o.offset, maxOut - HM_HEADER_LENGTH - overhead;
      var todo := if left > room then room else left;
      WithinMessage(o, f);
      PieceSealsNext(o, f, todo, previous, maxOut);
    }
    NothingSealed(o, maxOut);
  }

  lemma NothingSealed(o: Outbox, maxOut: nat)
    requires OutboxOk(o) && o.written < |o.messages|
    ensures SealsNext(o, Step(o, SealError), maxOut) && SealsNext(o, Step(o, NoProgress), maxOut)
  {
  }

  lemma PieceSealsNext(o: Outbox, f: Fragment, todo: nat, previous: bool, maxOut: nat)
    requires OutboxOk(o) && o.written < |o.messages| && !o.messages[o.written].isCcs && (previous ==> o.wEpoch >= 1)
    requires Content(o.messages[o.written]) == Some(f) && o.offset + todo <= |f.body| && (todo > 0 || f.body == [])
    requires o.messages[o.written].epoch == if previous then o.wEpoch - 1 else o.wEpoch
    ensures var piece := f.(off := o.offset, body := f.body[o.offset..o.offset + todo]);
            SealsNext(o, MoveOn(SealRecord(o, RT_HANDSHAKE, Serialize(piece), previous, maxOut), todo, |f.body| - o.offset), maxOut)
  {
    hide Content, Serialize, SealRecord, Carries, Finishes, Positioned;
    SealPieceStep(o, f, todo, previous, maxOut);
    var piece := f.(off := o.offset, body := f.body[o.offset..o.offset + todo]);
    var s := MoveOn(SealRecord(o, RT_HANDSHAKE, Serialize(piece), previous, maxOut), todo, |f.body| - o.offset);
    if s.ret.Progress? && !s.ret.whole { MidMessage(s.o, f); }
  }

  lemma WithinMessage(o: Outbox, f: Fragment)
    requires Positioned(o) && o.written < |o.messages| && !o.messages[o.written].isCcs && Content(o.messages[o.written]) == Some(f)
    ensures o.offset == |f.body| ==> f.body == []
  {
    hide Content;
  }

  lemma MidMessage(o: Outbox, f: Fragment)
    requires o.written < |o.messages| && !o.messages[o.written].isCcs && Content(o.messages[o.written]) == Some(f)
    requires o.offset < |f.body|
    ensures Positioned(o)
  {
    hide Content;
  }

  /** Sealing todo bytes of the message, not none of a message that has any. */
  lemma SealPieceStep(o: Outbox, f: Fragment, todo: nat, previous: bool, maxOut: nat)
    requires OutboxOk(o) && o.written < |o.messages| && !o.messages[o.written].isCcs && (previous ==> o.wEpoch >= 1)
    requires Content(o.messages[o.written]) == Some(f) && o.offset + todo <= |f.body| && (todo > 0 || f.body == [])
    requires o.messages[o.written].epoch == if previous then o.wEpoch - 1 else o.wEpoch
    ensures var s := SealRecord(o, RT_HANDSHAKE, Serialize(f.(off := o.offset, body := f.body[o.offset..o.offset + todo])), previous, maxOut);
            && OutboxOk(s.o) && s.o == o.(number := s.o.number, lastNumber := s.o.lastNumber, log := s.o.log)
            && (s.ret.Progress? ==>
                  && s.ret.whole && s.ret.record.size <= maxOut
                  && Carries(o.messages[o.written], o.offset, s.ret.record) && BodyLen(s.ret.record) == todo
                  && Finishes(o.messages[o.written], o.offset, s.ret.record) == (o.offset + todo == |f.body|))
  {
    hide Content, Serialize, SealRecord, Carries, Finishes, UsedAead, OutboxOk;
    var piece := f.(off := o.offset, body := f.body[o.offset..o.offset + todo]);
    SealRecordStep(o, RT_HANDSHAKE, Serialize(piece), previous, maxOut);
    var s := SealRecord(o, RT_HANDSHAKE, Serialize(piece), previous, maxOut);
    if s.ret.Progress? {
      PieceCarries(o.messages[o.written], o.offset, todo, s.ret.record);
    }
  }

  lemma SealStep(o: Outbox, maxOut: nat)
    requires OutboxOk(o) && Positioned(o) && o.written < |o.messages|
    ensures SealsNext(o, SealNextMessage(o, maxOut), maxOut)
  {
    hide Content, SealRecord, SealFragment;
    var m := o.messages[o.written];
    var previous := o.wEpoch >= 1 && m.epoch == o.wEpoch - 1;
    if m.isCcs {
      SealRecordStep(o, RT_CHANGE_CIPHER_SPEC, [MT_CCS], previous, maxOut);
    } else if Content(m).Some? && (previous || m.epoch == o.wEpoch) {
      hide SealsNext;
      SealFragmentStep(o, previous, maxOut);
    }
  }

  function TotalSize(rs: seq<Sealed>): nat
  {
    if rs == [] then 0 else TotalSize(rs[..|rs| - 1]) + rs[|rs| - 1].size
  }

  /** The position after a packet has been sealed, and where it began. */
  predicate Reached(o: Outbox, sealed: seq<Sealed>, o': Outbox)
  {
    && Path(o.messages, o.written, o.offset, sealed, o'.written, o'.offset)
    && o' == o.(number := o'.number, lastNumber := o'.lastNumber, written := o'.written, offset := o'.offset, log := o'.log)
  }

  lemma {:induction false} ReachedStep(o: Outbox, sealed: seq<Sealed>, o1: Outbox, maxOut: nat)
    requires OutboxOk(o1) && Positioned(o1) && o1.written < |o1.messages| && Reached(o, sealed, o1)
    requires SealNextMessage(o1, maxOut).ret.Progress?
    ensures var Step(o2, Progress(r, whole)) := SealNextMessage(o1, maxOut);
            var o3 := if whole then o2.(written := o2.written + 1) else o2;
            OutboxOk(o3) && Positioned(o3) && Reached(o, sealed + [r], o3)
  {
    hide SealNextMessage, Carries, Finishes, Content;
    SealStep(o1, maxOut);
    var Step(o2, Progress(r, whole)) := SealNextMessage(o1, maxOut);
    var o3 := if whole then o2.(written := o2.written + 1) else o2;
    PathOne(o.messages, o1.written, o1.offset, r, o3.written, o3.offset);
    PathTrans(o.messages, o.written, o.offset, sealed, o1.written, o1.offset, [r], o3.written, o3.offset);
  }

  lemma PathOne(ms: seq<Message>, w: nat, off: nat, r: Sealed, w': nat, off': nat)
    requires w < |ms| && Carries(ms[w], off, r)
    requires w' == if Finishes(ms[w], off, r) then w + 1 else w
    requires off' == if Finishes(ms[w], off, r) then 0 else off + BodyLen(r)
    ensures Path(ms, w, off, [r], w', off')
  {
    hide Carries, Finishes;
  }

  lemma PositionedAgain(o: Outbox, o': Outbox)
    requires Positioned(o) && o'.messages == o.messages && o'.written == o.written && o'.offset == o.offset
    ensures Positioned(o')
  {
  }

  lemma ReachedSelf(o: Outbox)
    ensures Reached(o, [], o) && TotalSize([]) == 0
  {
  }

  /** A packet continues the flight where it stood, fits its MTU and, when it is sent at all, is
    * not empty. */
  lemma {:induction false} PacketPath(o: Outbox, start: Outbox, maxOut: nat, mtu: nat, sealed: seq<Sealed>)
    requires OutboxOk(o) && Positioned(o) && Reached(start, sealed, o)
    requires TotalSize(sealed) + maxOut <= mtu
    ensures var p := SealLoop(o, maxOut, sealed);
            && OutboxOk(p.o)
            && p.o == start.(number := p.o.number, lastNumber := p.o.lastNumber, written := p.o.written, offset := p.o.offset, log := p.o.log)
            && Positioned(p.o)
            && (p.ok ==> p.records != [] && TotalSize(p.records) <= mtu && Reached(start, p.records, p.o))
    decreases |o.messages| - o.written
  {
    hide SealNextMessage, Path, Positioned, Carries, Finishes, TotalSize, Content;
    if o.written < |o.messages| {
      SealStep(o, maxOut);
      var s := SealNextMessage(o, maxOut);
      if s.ret.SealError? {
        PositionedAgain(o, s.o);
      } else if s.ret.Progress? {
        ReachedStep(start, sealed, o, maxOut);
        TotalSizeSnoc(sealed, s.ret.record);
        if s.ret.whole {
          PacketPath(s.o.(written := s.o.written + 1), start, maxOut - s.ret.record.size, mtu, sealed + [s.ret.record]);
        }
      }
    }
  }

  lemma TotalSizeSnoc(rs: seq<Sealed>, r: Sealed)
    ensures TotalSize(rs + [r]) == TotalSize(rs) + r.size
  {
    assert (rs + [r])[..|rs|] == rs;
  }
}
