/**
 * The DTLS flight sender as it runs (d1_both.cc, dtls_record.cc, dtls_method.cc): the queue, its
 * resumable progress and the write counters are fields updated in place. Every method takes the
 * state to what Outgoing says.
 */
module DtlsSender {
  import opened Bytes
  import opened Fragments
  import opened DtlsRecord
  import opened Incoming
  import opened Outgoing
  import opened Tiling
  import opened Flights
  import opened Account

  const MIN_MTU: nat := 228       // kMinMTU
  const DEFAULT_MTU: nat := 1472  // kDefaultMTU

  /** How send_flight ends: everything written and flushed, or written but not flushed, the
    * transport refused a packet, sealing failed, or writing was shut down before. */
  datatype Ending = Complete | Unflushed | Blocked | Failed | ShutDown

  /** What send_flight meets outside: write_shutdown, SSL_OP_NO_QUERY_MTU, the MTU the BIO knows
    * (negative when it does not), its answer to the i-th packet, and to the flush. */
  datatype Transport = Transport(isShutDown: bool, noQuery: bool, queriedMtu: int, write: nat -> int, flush: int)

  /** How a loop of packets from `before` on came to its end: what was written is the flight from
    * there to `stop`, and only a packet that failed in the way Skips describes moved on from it. */
  ghost predicate Stopped(before: Outbox, mtu: nat, packets: seq<seq<Sealed>>, stop: Outbox, ending: Ending, after: Outbox)
  {
    && stop.messages == before.messages && stop.skipped == before.skipped && stop.sent == before.sent + Flatten(packets)
    && Path(before.messages, before.written, before.offset, Flatten(packets), stop.written, stop.offset)
    && match ending
       case Complete => after == stop && stop.written == |stop.messages| && stop.offset == 0
       case Unflushed => after == stop && stop.written == |stop.messages| && stop.offset == 0
       case ShutDown => before == stop == after
       case Blocked =>
         && stop.written < |stop.messages| && after == Flights.SendPacket(stop, mtu, false)
         && after.written == stop.written && after.offset == stop.offset
       case Failed =>
         && stop.written < |stop.messages| && after == Flights.SendPacket(stop, mtu, false)
         && Fails(stop, mtu)
         && (after.written == stop.written && after.offset == stop.offset <==> !Skips(stop, mtu, false))
  }

  /** The packets written from `before` on have led to o. */
  ghost predicate SoFar(before: Outbox, mtu: nat, packets: seq<seq<Sealed>>, o: Outbox)
  {
    && o.messages == before.messages && o.skipped == before.skipped && o.sent == before.sent + Flatten(packets)
    && Path(before.messages, before.written, before.offset, Flatten(packets), o.written, o.offset)
    && forall p :: p in packets ==> p != [] && TotalSize(p) <= mtu
  }

  lemma SoFarNone(o: Outbox, mtu: nat)
    ensures SoFar(o, mtu, [], o)
  {
    hide Path, Flatten;
    PathEmpty(o.messages, o.written, o.offset);
    FlattenNone();
  }

  lemma SoFarMore(before: Outbox, mtu: nat, packets: seq<seq<Sealed>>, o: Outbox, packet: seq<Sealed>, o': Outbox)
    requires o.written < |o.messages| && SoFar(before, mtu, packets, o) && PacketDone(o, mtu, Complete, packet, o')
    ensures SoFar(before, mtu, packets + [packet], o') && o'.messages == o.messages && o'.complete == o.complete
  {
    hide Path, Flatten, TotalSize, Flights.SendPacket, Fails, Skips;
    FlattenSnoc(packets, packet);
    PathTrans(o.messages, before.written, before.offset, Flatten(packets), o.written, o.offset, packet, o'.written, o'.offset);
  }

  lemma PacketAdvances(o: Outbox, mtu: nat, packet: seq<Sealed>, o': Outbox)
    requires o.written < |o.messages| && PacketDone(o, mtu, Complete, packet, o')
    ensures o.written < o'.written || (o.written == o'.written && Left(o.messages[o.written], o'.offset) < Left(o.messages[o.written], o.offset))
  {
    hide Path, TotalSize, Flights.SendPacket, Fails, Skips, Left;
    PathAdvances(o.messages, o.written, o.offset, packet, o'.written, o'.offset);
  }

  lemma PacketStopped(before: Outbox, mtu: nat, packets: seq<seq<Sealed>>, o: Outbox, ending: Ending, packet: seq<Sealed>, o': Outbox)
    requires o.written < |o.messages| && SoFar(before, mtu, packets, o) && PacketDone(o, mtu, ending, packet, o')
    requires ending == Blocked || ending == Failed
    ensures Stopped(before, mtu, packets, o, ending, o') && o'.messages == o.messages && o'.complete == o.complete
    ensures o'.sent == before.sent + Flatten(packets)
    ensures forall p :: p in packets ==> p != [] && TotalSize(p) <= mtu
  {
    hide Path, Flatten, TotalSize, Fails, Skips, Flights.SendPacket;
  }

  lemma AllStopped(before: Outbox, mtu: nat, packets: seq<seq<Sealed>>, o: Outbox)
    requires SoFar(before, mtu, packets, o) && o.written == |o.messages| && o.offset == 0
    ensures Stopped(before, mtu, packets, o, Complete, o) && o.sent == before.sent + Flatten(packets)
    ensures forall p :: p in packets ==> p != [] && TotalSize(p) <= mtu
  {
    hide Path, Flatten, TotalSize;
  }

  /** One turn of the loop of seal_next_packet. */
  lemma SealLoopTurn(o: Outbox, room: nat, sealed: seq<Sealed>)
    requires OutboxOk(o) && Positioned(o) && o.written < |o.messages|
    ensures var Step(o', ret) := Outgoing.SealNextMessage(o, room);
            && o'.written == o.written && o'.messages == o.messages && o'.complete == o.complete
            && match ret
               case SealError => SealLoop(o, room, sealed) == Packet(false, o', sealed)
               case NoProgress => SealLoop(o, room, sealed) == Packet(sealed != [], o', sealed)
               case Progress(r, whole) =>
                 && r.size <= room
                 && if !whole then SealLoop(o, room, sealed) == Packet(true, o', sealed + [r])
                    else var next := o'.(written := o'.written + 1);
                         && SealLoop(o, room, sealed) == SealLoop(next, room - r.size, sealed + [r])
                         && OutboxOk(next) && Positioned(next)
  {
    hide Outgoing.SealNextMessage, Content, Path, Carries, Finishes;
    SealStep(o, room);
    var s := Outgoing.SealNextMessage(o, room);
    if s.ret.Progress? && s.ret.whole {
      NextPositioned(s.o.(written := s.o.written + 1));
    }
  }

  lemma SealLoopEnd(o: Outbox, room: nat, sealed: seq<Sealed>)
    requires o.written == |o.messages|
    ensures SealLoop(o, room, sealed) == Packet(sealed != [], o, sealed)
  {
  }

  class Sender {
    var messages: seq<Message>
    var written: nat
    var offset: nat
    var complete: bool
    var hasReply: bool
    var writeSeq: nat
    var wEpoch: nat
    var number: nat
    var lastNumber: nat
    var aead: Aead
    var lastAead: Aead
    var mtu: nat
    ghost var log: seq<Sealed>
    ghost var sent: seq<Sealed>
    ghost var skipped: bool

    ghost function Abs(): Outbox
      reads this
    {
      Outbox(messages, written, offset, complete, hasReply, writeSeq, wEpoch, number, lastNumber, aead, lastAead, log, sent, skipped)
    }

    /** What holds between any two steps. */
    ghost predicate Sealable()
      reads this
    {
      OutboxOk(Abs()) && Positioned(Abs())
    }

    /** What holds between any two calls: the account of the flight and of the numbers agree. */
    ghost predicate Valid()
      reads this
    {
      Accounted(Abs())
    }

    constructor ()
      ensures Valid() && messages == [] && writeSeq == 0 && wEpoch == 0 && number == 0 && log == []
    {
      messages, written, offset, complete, hasReply := [], 0, 0, false, false;
      writeSeq, wEpoch, number, lastNumber, log := 0, 0, 0, 0, [];
      aead, lastAead, mtu := Aead(0, 0, 0), Aead(0, 0, 0), 0;
      sent, skipped := [], false;
    }

    /** dtls_clear_outgoing_messages */
    method ClearOutgoing()
      requires Valid()
      modifies this
      ensures Valid() && Abs() == Clear(old(Abs())) && mtu == old(mtu)
    {
      hide Accounted;
      ClearAccounted(Abs());
      messages := [];
      written := 0;
      offset := 0;
      complete := false;
      hasReply := false;
      sent := [];
      skipped := false;
    }

    /** add_outgoing; a flight that is complete makes way even when the new message is refused. */
    method AddOutgoing(isCcs: bool, data: seq<byte>) returns (ok: bool)
      requires Valid()
      modifies this
      ensures Valid() && mtu == old(mtu)
      ensures Outgoing.AddOutgoing(old(Abs()), isCcs, data) == if ok then Some(Abs()) else None
      ensures !ok ==> Abs() == if old(complete) then Clear(old(Abs())) else old(Abs())
    {
      hide Accounted;
      if complete {
        ClearOutgoing();
      }
      if |messages| >= FLIGHT || |data| > 0xFFFF_FFFF {
        return false;
      }
      AddAccounted(Abs(), isCcs, data);
      if !isCcs {
        writeSeq := writeSeq + 1;
      }
      messages := messages + [Message(data, wEpoch, isCcs)];
      return true;
    }

    /** dtls1_set_write_state */
    method SetWriteState(aeadCtx: Aead)
      requires Valid()
      modifies this
      ensures Valid() && Abs() == Outgoing.SetWriteState(old(Abs()), aeadCtx) && mtu == old(mtu)
    {
      hide Accounted;
      EpochAccounted(Abs(), aeadCtx);
      wEpoch := wEpoch + 1;
      lastNumber := number;
      number := 0;
      lastAead := aead;
      aead := aeadCtx;
    }

    /** dtls_seal_record */
    method SealRecord(kind: nat, payload: seq<byte>, previous: bool, maxOut: nat) returns (ret: SealResult)
      requires Sealable() && (previous ==> wEpoch >= 1)
      modifies this`number, this`lastNumber, this`log
      ensures Outgoing.SealRecord(old(Abs()), kind, payload, previous, maxOut) == Step(Abs(), ret)
    {
      var epoch, a, n := wEpoch, aead, number;
      if previous {
        epoch, a, n := wEpoch - 1, lastAead, lastNumber;
      }
      var ciphertextLen := |payload| + a.Growth(|payload|);
      if RT_HEADER_LENGTH + ciphertextLen > maxOut {
        return SealError;
      }
      var next := if n + 1 < SEQ_LIMIT then n + 1 else 0;
      if previous { lastNumber := next; } else { number := next; }
      var r := Sealed(kind, epoch, n, payload, RT_HEADER_LENGTH + ciphertextLen);
      log := log + [r];
      if next == 0 || ciphertextLen >= 0x1_0000 {
        return SealError;
      }
      return Progress(r, true);
    }

    /** seal_next_message */
    method SealNextMessage(maxOut: nat) returns (ret: SealResult)
      requires Sealable() && written < |messages|
      modifies this`number, this`lastNumber, this`log, this`offset
      ensures Outgoing.SealNextMessage(old(Abs()), maxOut) == Step(Abs(), ret)
    {
      hide Content, Serialize, Outgoing.SealRecord;
      var msg := messages[written];
      var previous := false;
      if wEpoch >= 1 && msg.epoch == wEpoch - 1 {
        previous := true;
      } else if msg.epoch != wEpoch {
        return SealError;
      }
      var a := if previous then lastAead else aead;
      var overhead, prefix := RT_HEADER_LENGTH + a.MaxOverhead(), RT_HEADER_LENGTH + a.nonceLen;
      if msg.isCcs {
        if maxOut < 1 + overhead {
          return NoProgress;
        }
        ret := SealRecord(RT_CHANGE_CIPHER_SPEC, [MT_CCS], previous, maxOut);
        return;
      }
      var content := Content(msg);
      if content.None? {
        return SealError;
      }
      var f := content.value;
      if offset > |f.body| {
        return SealError;
      }
      if maxOut < HM_HEADER_LENGTH + 1 + overhead || maxOut < prefix {
        return NoProgress;
      }
      var left := |f.body| - offset;
      var todo := left;
      if todo > maxOut - HM_HEADER_LENGTH - overhead {
        todo := maxOut - HM_HEADER_LENGTH - overhead;
      }
      var frag := Serialize(Fragment(f.kind, f.msgLen, f.seq_, offset, f.body[offset..offset + todo]));
      ret := SealRecord(RT_HANDSHAKE, frag, previous, maxOut);
      if ret.SealError? {
        return;
      }
      if todo == left {
        offset := 0;
        return;
      }
      offset := offset + todo;
      ret := ret.(whole := false);
    }

    /** seal_next_packet: the packet continues the flight and fits, and is not empty. */
    method SealNextPacket(maxOut: nat) returns (ok: bool, packet: seq<Sealed>)
      requires Sealable() && written < |messages|
      modifies this`number, this`lastNumber, this`log, this`offset, this`written
      ensures Outgoing.SealNextPacket(old(Abs()), maxOut) == Packet(ok, Abs(), packet)
      ensures Sealable()
      ensures ok ==> packet != [] && TotalSize(packet) <= maxOut && Reached(old(Abs()), packet, Abs())
    {
      hide Outgoing.SealNextMessage, OutboxOk, Positioned, Path, Carries, Finishes, Reached, TotalSize, SealLoop;
      ReachedSelf(Abs());
      PacketPath(Abs(), Abs(), maxOut, maxOut, []);
      packet := [];
      var room := maxOut;
      while written < |messages|
        invariant Sealable() && written <= |messages| && messages == old(messages) && complete == old(complete)
        invariant Outgoing.SealNextPacket(old(Abs()), maxOut) == SealLoop(Abs(), room, packet)
        decreases |messages| - written
      {
        SealLoopTurn(Abs(), room, packet);
        var ret := SealNextMessage(room);
        match ret {
          case SealError => return false, packet;
          case NoProgress => return packet != [], packet;
          case Progress(r, whole) =>
            packet := packet + [r];
            if !whole {
              return true, packet;
            }
            room := room - r.size;
            written := written + 1;
        }
      }
      SealLoopEnd(Abs(), room, packet);
      return packet != [], packet;
    }

    /** dtls1_update_mtu; `queried` is what the BIO answers, negative when it does not know. The
      * assertion at its end fails exactly for an MTU too small that is not to be queried. */
    method UpdateMtu(noQuery: bool, queried: int)
      modifies this`mtu
      ensures mtu == if old(mtu) >= MIN_MTU || noQuery then old(mtu)
                     else if MIN_MTU <= queried <= 0x4000_0000 then queried else DEFAULT_MTU
      ensures mtu >= MIN_MTU <==> old(mtu) >= MIN_MTU || !noQuery
    {
      if mtu < MIN_MTU && !noQuery {
        if 0 <= queried <= 0x4000_0000 && queried >= MIN_MTU {
          mtu := queried;
        } else {
          mtu := DEFAULT_MTU;
        }
      }
    }

    /** One turn of the loop of send_flight. A refused packet is sealed again the next time. A packet
      * that fails leaves the position where it was exactly when Skips does not hold, which its
      * guards tell in advance. */
    method SendPacket(bioRet: int) returns (ending: Ending, packet: seq<Sealed>)
      requires Valid() && written < |messages|
      modifies this`number, this`lastNumber, this`log, this`offset, this`written, this`sent, this`skipped
      ensures Valid() && PacketDone(old(Abs()), mtu, ending, packet, Abs())
      ensures ending == Failed || ending == if bioRet <= 0 then Blocked else Complete
    {
      hide Path, Positioned, OutboxOk, Outgoing.SealNextPacket, Reached, TotalSize, Accounted, Skips, Fails, Flights.SendPacket, PacketDone;
      ghost var before := Abs();
      AccountedParts(before);
      var oldWritten, oldOffset := written, offset;
      var sealed;
      sealed, packet := SealNextPacket(mtu);
      ending := if !sealed then Failed else if bioRet <= 0 then Blocked else Complete;
      PacketFacts(before, mtu, ending, packet);
      if !sealed {
        skipped := skipped || Skips(before, mtu, false);
      } else if bioRet <= 0 {
        written := oldWritten;
        offset := oldOffset;
      } else {
        sent := sent + packet;
      }
    }

    /** The loop of send_flight; bio(i) is what the transport returns for the i-th packet. What has
      * been written is a contiguous piece of the flight, up to `stop`, the state in which the last
      * packet was begun. A refused packet is not part of it, and sending goes on from there; a
      * failed one goes on from there exactly when Skips does not hold. */
    method SendPackets(bio: nat -> int) returns (ending: Ending, packets: seq<seq<Sealed>>, ghost stop: Outbox)
      requires Valid()
      modifies this`number, this`lastNumber, this`log, this`offset, this`written, this`sent, this`skipped
      ensures Valid() && messages == old(messages) && complete == old(complete)
      ensures forall p :: p in packets ==> p != [] && TotalSize(p) <= mtu
      ensures sent == old(sent) + Flatten(packets)
      ensures Stopped(old(Abs()), mtu, packets, stop, ending, Abs())
      ensures ending == Blocked ==> bio(|packets|) <= 0
      ensures forall i :: 0 <= i < |packets| ==> bio(i) > 0
      ensures ending == Complete || ending == Blocked || ending == Failed
    {
      hide Path, TotalSize, Flatten, Left, Accounted, Skips, Fails, SoFar, Stopped, PacketDone, SealLoop, OutboxOk, Positioned;
      hide Flights.SendPacket, Outgoing.SealNextPacket;
      packets := [];
      ghost var before := Abs();
      SoFarNone(before, mtu);
      while written < |messages|
        invariant Valid() && messages == before.messages && complete == before.complete
        invariant SoFar(before, mtu, packets, Abs())
        invariant forall i :: 0 <= i < |packets| ==> bio(i) > 0
        decreases |messages| - written, if written < |messages| then Left(messages[written], offset) else 0
      {
        stop := Abs();
        var packet;
        ending, packet := SendPacket(bio(|packets|));
        if ending != Complete {
          PacketStopped(before, mtu, packets, stop, ending, packet, Abs());
          return ending, packets, stop;
        }
        PacketAdvances(stop, mtu, packet, Abs());
        SoFarMore(before, mtu, packets, stop, packet, Abs());
        packets := packets + [packet];
      }
      EndOffset(this);
      AllStopped(before, mtu, packets, Abs());
      return Complete, packets, Abs();
    }

    /** send_flight */
    method SendFlight(bio: Transport) returns (ending: Ending, packets: seq<seq<Sealed>>, ghost stop: Outbox)
      requires Valid()
      modifies this`number, this`lastNumber, this`log, this`offset, this`written, this`sent, this`skipped, this`mtu
      ensures Valid() && messages == old(messages) && complete == old(complete)
      ensures ending == ShutDown <==> bio.isShutDown
      ensures ending == ShutDown ==> packets == [] && Abs() == old(Abs()) && mtu == old(mtu)
      ensures ending != ShutDown ==> (mtu >= MIN_MTU <==> old(mtu) >= MIN_MTU || !bio.noQuery)
      ensures forall p :: p in packets ==> p != [] && TotalSize(p) <= mtu
      ensures sent == old(sent) + Flatten(packets)
      ensures Stopped(old(Abs()), mtu, packets, stop, ending, Abs())
      ensures ending == Complete || ending == Unflushed ==> (ending == Complete <==> bio.flush > 0)
      ensures ending == Blocked ==> bio.write(|packets|) <= 0
      ensures forall i :: 0 <= i < |packets| ==> bio.write(i) > 0
    {
      hide Content, Path, Positioned, TotalSize, Flatten, Accounted, Skips, Fails, Flights.SendPacket;
      if bio.isShutDown {
        PathEmpty(messages, written, offset);
        FlattenNone();
        return ShutDown, [], Abs();
      }
      UpdateMtu(bio.noQuery, bio.queriedMtu);
      ending, packets, stop := SendPackets(bio.write);
      if ending == Complete && bio.flush <= 0 {
        ending := Unflushed;
      }
    }

    /** dtls1_flush_flight: what had not been sent yet is sent. Over any number of such calls, at any
      * MTUs and after any refusals, the flight that is complete in the end is tiled, message by
      * message, by all the records written since it was begun, unless a message was skipped. */
    method FlushFlight(bio: Transport) returns (ending: Ending, packets: seq<seq<Sealed>>, ghost stop: Outbox)
      requires Valid()
      modifies this
      ensures Valid() && messages == old(messages) && complete
      ensures forall p :: p in packets ==> p != [] && TotalSize(p) <= mtu
      ensures sent == old(sent) + Flatten(packets)
      ensures Stopped(old(Abs()).(complete := true), mtu, packets, stop, ending, Abs())
      ensures ending == Blocked ==> bio.write(|packets|) <= 0
      ensures ending == Complete || ending == Unflushed ==> (Written(messages, sent) <==> !skipped)
    {
      hide Path, Content, Positioned, TotalSize, Flatten, Accounted, FlightOk, Skips, Fails, Written, Flights.SendPacket;
      complete := true;
      FlagsAccounted(old(Abs()), Abs());
      ending, packets, stop := SendFlight(bio);
      if ending == Complete || ending == Unflushed {
        CompleteFlight(this);
      }
    }

    /** dtls1_retransmit_outgoing_messages: the whole flight once more, tiling every message. */
    method Retransmit(bio: Transport) returns (ending: Ending, packets: seq<seq<Sealed>>, ghost stop: Outbox)
      requires Valid()
      modifies this
      ensures Valid() && messages == old(messages) && complete == old(complete)
      ensures forall p :: p in packets ==> p != [] && TotalSize(p) <= mtu
      ensures sent == Flatten(packets)
      ensures Stopped(Rewound(old(Abs())), mtu, packets, stop, ending, Abs())
      ensures ending == Blocked ==> bio.write(|packets|) <= 0
      ensures ending == Complete || ending == Unflushed ==> Written(messages, Flatten(packets))
    {
      hide Path, Content, Carries, Finishes, Accounted, FlightOk, Flatten, Skips, Fails, Written, Flights.SendPacket, TotalSize;
      written := 0;
      offset := 0;
      sent := [];
      skipped := false;
      RewindAccounted(old(Abs()));
      ending, packets, stop := SendFlight(bio);
      assert [] + Flatten(packets) == Flatten(packets);
      if ending == Complete || ending == Unflushed {
        CompleteFlight(this);
      }
    }

    /** The part of dtls1_next_message that notes the peer's answer to the flight. */
    method NoteReply()
      requires Valid()
      modifies this`hasReply
      ensures Valid() && Abs() == if old(complete) then old(Abs()).(hasReply := true) else old(Abs())
    {
      hide Accounted;
      if complete {
        FlagsAccounted(Abs(), Abs().(hasReply := true));
        hasReply := true;
      }
    }

    /** dtls1_on_handshake_complete */
    method OnHandshakeComplete()
      requires Valid()
      modifies this
      ensures Valid() && Abs() == if old(hasReply) then Clear(old(Abs())) else old(Abs())
    {
      if hasReply {
        ClearOutgoing();
      }
    }
  }

  /** Bytes of a message still to be sent, one more for its last fragment. */
  function Left(m: Message, offset: nat): nat
  {
    if !m.isCcs && Content(m).Some? && offset <= |Content(m).value.body| then |Content(m).value.body| - offset else 0
  }

  /** What one packet comes to: it is sent and moves the position on by what is in it, or is refused and
    * leaves the position, or fails, which leaves the position exactly if Skips does not hold. */
  ghost predicate PacketDone(o: Outbox, mtu: nat, ending: Ending, packet: seq<Sealed>, o': Outbox)
    requires o.written < |o.messages|
  {
    && o' == Flights.SendPacket(o, mtu, ending == Complete)
    && o'.messages == o.messages && o'.complete == o.complete
    && (ending == Failed <==> Fails(o, mtu))
    && o'.skipped == (o.skipped || (ending == Failed && Skips(o, mtu, false)))
    && o'.sent == (if ending == Complete then o.sent + packet else o.sent)
    && (ending == Complete ==>
          && packet != [] && TotalSize(packet) <= mtu
          && Path(o.messages, o.written, o.offset, packet, o'.written, o'.offset))
    && (ending == Blocked ==> o'.written == o.written && o'.offset == o.offset)
    && (ending == Failed ==> (o'.written == o.written && o'.offset == o.offset <==> !Skips(o, mtu, false)))
  }

  lemma PacketFacts(o: Outbox, mtu: nat, ending: Ending, packet: seq<Sealed>)
    requires Accounted(o) && o.written < |o.messages|
    requires SealNextPacket(o, mtu).records == packet
    requires if SealNextPacket(o, mtu).ok then ending == Complete || ending == Blocked else ending == Failed
    ensures var o' := Flights.SendPacket(o, mtu, ending == Complete);
            && Accounted(o') && PacketDone(o, mtu, ending, packet, o')
            && o' == var p := SealNextPacket(o, mtu);
               o.(number := p.o.number, lastNumber := p.o.lastNumber, log := p.o.log,
                  written := if ending == Blocked then o.written else p.o.written,
                  offset := if ending == Blocked then o.offset else p.o.offset,
                  sent := if ending == Complete then o.sent + packet else o.sent,
                  skipped := o.skipped || (ending == Failed && Skips(o, mtu, false)))
  {
    hide Path, Positioned, SealLoop, TotalSize, Accounted, Skips, Fails;
    AccountedParts(o);
    SendAccounted(o, mtu, ending == Complete);
    FailedPosition(o, mtu);
    PacketFailsIff(o, mtu);
    ReachedSelf(o);
    PacketPath(o, o, mtu, mtu, []);
  }

  lemma FlattenNone()
    ensures Flatten([]) == [] && forall a: seq<Sealed> :: a + [] == a
  {
  }

  lemma EndOffset(sender: Sender)
    requires sender.Valid() && sender.written >= |sender.messages|
    ensures sender.offset == 0 && sender.written == |sender.messages|
  {
    AccountedParts(sender.Abs());
  }

  lemma CompleteFlight(sender: Sender)
    requires sender.Valid() && sender.written == |sender.messages|
    ensures Written(sender.messages, sender.sent) <==> !sender.skipped
  {
    AccountedFlight(sender.Abs());
    hide Written, FlightOk, Accounted;
    FlightComplete(sender.Abs());
  }

  lemma {:induction false} FlattenSnoc(packets: seq<seq<Sealed>>, packet: seq<Sealed>)
    ensures Flatten(packets + [packet]) == Flatten(packets) + packet
  {
    if packets == [] {
      assert packets + [packet] == [packet] && packet + [] == packet && [] + packet == packet;
    } else {
      assert (packets + [packet])[1..] == packets[1..] + [packet];
      FlattenSnoc(packets[1..], packet);
    }
  }

  /** A packet that is not empty moves the position forward. */
  lemma {:induction false} PathAdvances(ms: seq<Message>, w: nat, off: nat, records: seq<Sealed>, w': nat, off': nat)
    requires Path(ms, w, off, records, w', off') && records != []
    ensures w < w' || (w == w' < |ms| && Left(ms[w], off') < Left(ms[w], off))
    decreases |records|
  {
    hide Content, Serialize;
    var m, r := ms[w], records[0];
    if Finishes(m, off, r) {
      if records[1..] != [] {
        PathAdvances(ms, w + 1, 0, records[1..], w', off');
      }
    } else if records[1..] != [] {
      PathAdvances(ms, w, off + BodyLen(r), records[1..], w', off');
    }
  }
}
