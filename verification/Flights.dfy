/**
 * A flight sent over several calls (seal_next_packet and send_flight in d1_both.cc): for any
 * sequence of MTUs, refused packets and failed seals, what has been written is the flight up to the
 * current position, unless a failed packet made the position skip a message. When that happens is
 * told by the guards of the seals alone.
 */
module Flights {
  import opened Bytes
  import opened Fragments
  import opened DtlsRecord
  import opened Incoming
  import opened Outgoing
  import opened Tiling

  // ---------------------------------------------------------------- the guards of seal_next_message

  predicate UsesPrevious(o: Outbox)
    requires o.written < |o.messages|
  {
    o.wEpoch >= 1 && o.messages[o.written].epoch == o.wEpoch - 1
  }

  /** The next message was queued two or more epochs ago, or is no message. */
  predicate Unsendable(o: Outbox)
    requires o.written < |o.messages|
  {
    var m := o.messages[o.written];
    (!UsesPrevious(o) && m.epoch != o.wEpoch) || (!m.isCcs && Content(m).None?)
  }

  /** What is left of the next message. */
  function Rest(o: Outbox): nat
    requires o.written < |o.messages| && !o.messages[o.written].isCcs && Content(o.messages[o.written]).Some?
  {
    var n := |Content(o.messages[o.written]).value.body|;
    if o.offset <= n then n - o.offset else 0
  }

  /** The least a record for the next message can take. */
  function LeastSize(o: Outbox): nat
    requires o.written < |o.messages|
  {
    RT_HEADER_LENGTH + UsedAead(o, UsesPrevious(o)).MaxOverhead() +
    if o.messages[o.written].isCcs then 1 else HM_HEADER_LENGTH + 1
  }

  /** How much of the next message fits. */
  function Part(o: Outbox, maxOut: nat): nat
    requires o.written < |o.messages| && !Unsendable(o) && LeastSize(o) <= maxOut
  {
    if o.messages[o.written].isCcs then 1
    else
      var room := maxOut - HM_HEADER_LENGTH - RT_HEADER_LENGTH - UsedAead(o, UsesPrevious(o)).MaxOverhead();
      if Rest(o) > room then room else Rest(o)
  }

  function PayloadSize(o: Outbox, maxOut: nat): nat
    requires o.written < |o.messages| && !Unsendable(o) && LeastSize(o) <= maxOut
  {
    Part(o, maxOut) + if o.messages[o.written].isCcs then 0 else HM_HEADER_LENGTH
  }

  function CiphertextSize(o: Outbox, maxOut: nat): nat
    requires o.written < |o.messages| && !Unsendable(o) && LeastSize(o) <= maxOut
  {
    PayloadSize(o, maxOut) + UsedAead(o, UsesPrevious(o)).Growth(PayloadSize(o, maxOut))
  }

  /** The record would use up its counter or be too long for its length field. */
  predicate Overflows(o: Outbox, maxOut: nat)
    requires o.written < |o.messages| && !Unsendable(o) && LeastSize(o) <= maxOut
  {
    NumberOf(o, UsesPrevious(o)) >= SEQ_LIMIT - 1 || CiphertextSize(o, maxOut) >= 0x1_0000
  }

  predicate WholeFits(o: Outbox, maxOut: nat)
    requires o.written < |o.messages| && !Unsendable(o) && LeastSize(o) <= maxOut
  {
    o.messages[o.written].isCcs || Part(o, maxOut) == Rest(o)
  }

  /** The state after the whole rest of the next message has been sealed. */
  function AfterWhole(o: Outbox): Outbox
    requires o.written < |o.messages|
  {
    (if UsesPrevious(o) then o.(lastNumber := o.lastNumber + 1) else o.(number := o.number + 1)).(written := o.written + 1, offset := 0)
  }

  /** A record of the packet fails to be sealed after whole messages have been sealed into it
    * (`begun`): every message so far fits and the next one meets one of the guards above. */
  predicate Skips(o: Outbox, maxOut: nat, begun: bool)
    requires o.written <= |o.messages|
    decreases |o.messages| - o.written
  {
    if o.written == |o.messages| then false
    else if Unsendable(o) then begun
    else if LeastSize(o) > maxOut then false
    else if Overflows(o, maxOut) then begun
    else WholeFits(o, maxOut) && Skips(AfterWhole(o), maxOut - RT_HEADER_LENGTH - CiphertextSize(o, maxOut), true)
  }

  /** One packet of send_flight and the transport's answer: a refused packet will be sealed again. */
  function SendPacket(o: Outbox, mtu: nat, taken: bool): Outbox
    requires o.written < |o.messages|
  {
    var p := SealNextPacket(o, mtu);
    if !p.ok then p.o.(skipped := o.skipped || Skips(o, mtu, false))
    else if taken then p.o.(sent := o.sent + p.records)
    else p.o.(written := o.written, offset := o.offset)
  }

  /** dtls1_retransmit_outgoing_messages, before it sends. */
  function Rewound(o: Outbox): Outbox
  {
    o.(written := 0, offset := 0, sent := [], skipped := false)
  }

  // ---------------------------------------------------------------- the guards are exact

  /** The outcome of a call that seals the part of the next message that fits. */
  predicate Outcome(o: Outbox, s: Step, maxOut: nat)
    requires o.written < |o.messages|
  {
    if Unsendable(o) then s.ret.SealError?
    else if LeastSize(o) > maxOut then s.ret.NoProgress?
    else if Overflows(o, maxOut) then s.ret.SealError?
    else
      && s.ret.Progress? && s.ret.whole == WholeFits(o, maxOut)
      && s.ret.record.size == RT_HEADER_LENGTH + CiphertextSize(o, maxOut)
      && (s.ret.whole ==> s.o.(written := o.written + 1) == AfterWhole(o).(log := s.o.log))
  }

  lemma FragmentOutcome(o: Outbox, maxOut: nat)
    requires Positioned(o) && o.written < |o.messages| && !o.messages[o.written].isCcs && !Unsendable(o)
    ensures Outcome(o, SealFragment(o, Content(o.messages[o.written]).value, UsesPrevious(o), maxOut), maxOut)
  {
    hide Content, Serialize, Positioned, Aead.Growth, SealRecord;
    NotPast(o);
    var f, previous := Content(o.messages[o.written]).value, UsesPrevious(o);
    if LeastSize(o) <= maxOut {
      var todo := Part(o, maxOut);
      var piece := f.(off := o.offset, body := f.body[o.offset..o.offset + todo]);
      hide Unsendable, UsesPrevious, UsedAead, NumberOf, Aead.MaxOverhead;
      RecordOutcome(o, RT_HANDSHAKE, Serialize(piece), previous, maxOut);
    }
  }

  /** Sealing a record for which there is room. */
  lemma RecordOutcome(o: Outbox, kind: nat, payload: seq<byte>, previous: bool, maxOut: nat)
    requires (previous ==> o.wEpoch >= 1) && RT_HEADER_LENGTH + |payload| + UsedAead(o, previous).MaxOverhead() <= maxOut
    ensures var s, n := SealRecord(o, kind, payload, previous, maxOut), |payload| + UsedAead(o, previous).Growth(|payload|);
            && (s.ret.SealError? <==> NumberOf(o, previous) >= SEQ_LIMIT - 1 || n >= 0x1_0000)
            && (s.ret.Progress? ==>
                  && s.ret.whole && s.ret.record.size == RT_HEADER_LENGTH + n
                  && s.o == (if previous then o.(lastNumber := o.lastNumber + 1) else o.(number := o.number + 1)).(log := s.o.log))
  {
  }

  /** What sealing the next message comes to, by its guards. */
  lemma SealOutcome(o: Outbox, maxOut: nat)
    requires OutboxOk(o) && Positioned(o) && o.written < |o.messages|
    ensures Outcome(o, SealNextMessage(o, maxOut), maxOut)
  {
    hide Content, SealRecord, SealFragment, Positioned, Aead.Growth;
    var m := o.messages[o.written];
    if !Unsendable(o) {
      if m.isCcs {
        CcsAtStart(o);
        if LeastSize(o) <= maxOut { RecordOutcome(o, RT_CHANGE_CIPHER_SPEC, [MT_CCS], UsesPrevious(o), maxOut); }
      } else {
        hide Outcome;
        FragmentOutcome(o, maxOut);
      }
    }
  }

  lemma CcsAtStart(o: Outbox)
    requires Positioned(o) && o.written < |o.messages| && o.messages[o.written].isCcs
    ensures o.offset == 0
  {
  }

  lemma NotPast(o: Outbox)
    requires Positioned(o) && o.written < |o.messages| && !o.messages[o.written].isCcs && Content(o.messages[o.written]).Some?
    ensures o.offset <= |Content(o.messages[o.written]).value.body|
  {
    hide Content;
  }

  /** A packet fails with messages already sealed into it exactly when Skips says so. `a` is o
    * without its log. */
  lemma {:induction false} SkipsIff(o: Outbox, a: Outbox, maxOut: nat, sealed: seq<Sealed>)
    requires OutboxOk(o) && Positioned(o) && a == o.(log := a.log)
    ensures var p := SealLoop(o, maxOut, sealed);
            !p.ok && p.records != [] <==> Skips(a, maxOut, sealed != [])
    decreases |o.messages| - o.written
  {
    hide SealNextMessage, Overflows, LeastSize, WholeFits, CiphertextSize, Positioned, Unsendable, AfterWhole, Carries, Finishes;
    if o.written < |o.messages| {
      SealOutcome(o, maxOut);
      SealStep(o, maxOut);
      GuardsSame(o, a, maxOut);
      var s := SealNextMessage(o, maxOut);
      if s.ret.Progress? && s.ret.whole {
        var next := s.o.(written := o.written + 1);
        NextPositioned(next);
        SkipsIff(next, AfterWhole(a), maxOut - s.ret.record.size, sealed + [s.ret.record]);
      }
    }
  }

  /** The guards do not look at the log. */
  lemma GuardsSame(o: Outbox, a: Outbox, maxOut: nat)
    requires o.written < |o.messages| && a == o.(log := a.log)
    ensures Unsendable(o) == Unsendable(a) && LeastSize(o) == LeastSize(a)
    ensures !Unsendable(o) && LeastSize(o) <= maxOut ==>
              && Overflows(o, maxOut) == Overflows(a, maxOut) && WholeFits(o, maxOut) == WholeFits(a, maxOut)
              && CiphertextSize(o, maxOut) == CiphertextSize(a, maxOut)
    ensures AfterWhole(a) == AfterWhole(o).(log := a.log)
  {
    hide Content;
  }

  lemma NextPositioned(o: Outbox)
    requires o.offset == 0
    ensures Positioned(o)
  {
  }

  predicate Fails(o: Outbox, mtu: nat)
    requires o.written < |o.messages|
  {
    Unsendable(o) || LeastSize(o) > mtu || Overflows(o, mtu) || Skips(o, mtu, false)
  }

  /** A packet fails exactly when its first record cannot be sealed or a later one fails. */
  lemma PacketFailsIff(o: Outbox, mtu: nat)
    requires OutboxOk(o) && Positioned(o) && o.written < |o.messages|
    ensures !SealNextPacket(o, mtu).ok <==> Fails(o, mtu)
  {
    hide SealNextMessage, Overflows, LeastSize, WholeFits, CiphertextSize, Positioned, Unsendable, AfterWhole, Carries, Finishes, Skips;
    SealOutcome(o, mtu);
    SealStep(o, mtu);
    SkipsIff(o, o, mtu, []);
    var s := SealNextMessage(o, mtu);
    if s.ret.Progress? && s.ret.whole {
      var next := s.o.(written := o.written + 1);
      NextPositioned(next);
      FailedPacket(next, mtu - s.ret.record.size, [s.ret.record]);
      assert [] + [s.ret.record] == [s.ret.record];
    }
  }

  /** Where a packet that fails leaves the position. */
  lemma FailedPosition(o: Outbox, mtu: nat)
    requires OutboxOk(o) && Positioned(o) && o.written < |o.messages|
    ensures var p := SealNextPacket(o, mtu);
            && (p.ok ==> !Skips(o, mtu, false))
            && (!p.ok ==> ((p.o.written == o.written && p.o.offset == o.offset) <==> !Skips(o, mtu, false)))
            && (!p.ok ==> o.written <= p.o.written)
  {
    hide SealLoop, Skips, Positioned;
    SkipsIff(o, o, mtu, []);
    FailedPacket(o, mtu, []);
  }

  lemma SkipsOnlyFailing(o: Outbox, mtu: nat)
    requires OutboxOk(o) && Positioned(o) && o.written < |o.messages| && Skips(o, mtu, false)
    ensures !SealNextPacket(o, mtu).ok
  {
    hide SealLoop, Skips, Positioned;
    SkipsIff(o, o, mtu, []);
  }

  /** A failed packet has moved the position by the messages sealed into it, and no further. */
  lemma {:induction false} FailedPacket(o: Outbox, maxOut: nat, sealed: seq<Sealed>)
    requires OutboxOk(o) && Positioned(o)
    ensures var p := SealLoop(o, maxOut, sealed);
            !p.ok ==>
              && |sealed| <= |p.records| && p.o.written == o.written + |p.records| - |sealed|
              && (p.records == sealed ==> p.o.offset == o.offset)
              && (p.records != [] ==> p.o.written < |o.messages|)
    decreases |o.messages| - o.written
  {
    hide SealNextMessage, Positioned;
    if o.written < |o.messages| {
      SealStep(o, maxOut);
      var s := SealNextMessage(o, maxOut);
      if s.ret.Progress? && s.ret.whole {
        var next := s.o.(written := o.written + 1);
        NextPositioned(next);
        FailedPacket(next, maxOut - s.ret.record.size, sealed + [s.ret.record]);
      }
    }
  }

  // ---------------------------------------------------------------- records that end a message

  /** The record carries the last bytes of its message. */
  predicate Final(r: Sealed)
  {
    || r.kind == RT_CHANGE_CIPHER_SPEC
    || match ParseFragment(r.payload)
       case Got(f, _) => f.off + |f.body| == f.msgLen
       case Fail => false
  }

  function Finals(rs: seq<Sealed>): nat
  {
    if rs == [] then 0 else (if Final(rs[0]) then 1 else 0) + Finals(rs[1..])
  }

  lemma {:induction false} FinalsCat(a: seq<Sealed>, b: seq<Sealed>)
    ensures Finals(a + b) == Finals(a) + Finals(b)
  {
    hide Final;
    if a == [] {
      assert a + b == b;
    } else {
      assert (a + b)[1..] == a[1..] + b;
      FinalsCat(a[1..], b);
    }
  }

  lemma CarriesFinal(m: Message, off: nat, r: Sealed)
    requires Carries(m, off, r)
    ensures Final(r) == Finishes(m, off, r)
  {
    hide Serialize, ParseFragment;
    if !m.isCcs {
      var f, n := Content(m).value, BodyLen(r);
      ParsedWhole(m);
      var piece := f.(off := off, body := f.body[off..off + n]);
      FragmentRoundTrip(piece, []);
      assert Serialize(piece) + [] == Serialize(piece);
    }
  }

  /** A message in the queue is a fragment whose header fields fit. */
  lemma ParsedWhole(m: Message)
    requires Content(m).Some?
    ensures var f := Content(m).value; Fits(f) && f.off == 0 && |f.body| == f.msgLen
  {
    ParsedFits(m.data);
    hide ParseFragment;
  }

  /** The position counts the records that end a message. */
  lemma {:induction false} PathFinals(ms: seq<Message>, w: nat, off: nat, rs: seq<Sealed>, w': nat, off': nat)
    requires Path(ms, w, off, rs, w', off')
    ensures w' == w + Finals(rs)
    decreases |rs|
  {
    hide Carries, Finishes, Final;
    if rs != [] {
      CarriesFinal(ms[w], off, rs[0]);
      if Finishes(ms[w], off, rs[0]) {
        PathFinals(ms, w + 1, 0, rs[1..], w', off');
      } else {
        PathFinals(ms, w, off + BodyLen(rs[0]), rs[1..], w', off');
      }
    }
  }

  // ---------------------------------------------------------------- what every call keeps

  /** What has been written is the flight up to the position, or the position has passed a message. */
  predicate FlightOk(o: Outbox)
  {
    && (o.hasReply ==> o.complete)
    && if o.skipped then Finals(o.sent) < o.written else Path(o.messages, 0, 0, o.sent, o.written, o.offset)
  }

  /** Written and flight agree exactly when nothing was skipped. */
  lemma FlightOkIff(o: Outbox)
    requires FlightOk(o)
    ensures Path(o.messages, 0, 0, o.sent, o.written, o.offset) <==> !o.skipped
  {
    hide Path, Finals;
    if Path(o.messages, 0, 0, o.sent, o.written, o.offset) {
      PathFinals(o.messages, 0, 0, o.sent, o.written, o.offset);
    }
  }

  lemma {:induction false} PathMore(ms: seq<Message>, m: Message, w: nat, off: nat, rs: seq<Sealed>, w': nat, off': nat)
    requires Path(ms, w, off, rs, w', off')
    ensures Path(ms + [m], w, off, rs, w', off')
    decreases |rs|
  {
    hide Carries, Finishes;
    if rs != [] {
      assert (ms + [m])[w] == ms[w];
      if Finishes(ms[w], off, rs[0]) {
        PathMore(ms, m, w + 1, 0, rs[1..], w', off');
      } else {
        PathMore(ms, m, w, off + BodyLen(rs[0]), rs[1..], w', off');
      }
    }
  }

  lemma ClearKeeps(o: Outbox)
    requires OutboxOk(o)
    ensures OutboxOk(Clear(o)) && Positioned(Clear(o)) && FlightOk(Clear(o))
  {
  }

  lemma AddKeepsFlight(o: Outbox, isCcs: bool, data: seq<byte>)
    requires FlightOk(o) && AddOutgoing(o, isCcs, data).Some?
    ensures FlightOk(AddOutgoing(o, isCcs, data).value)
  {
    hide Path, Finals;
    if o.complete {
      PathEmpty(AddOutgoing(o, isCcs, data).value.messages, 0, 0);
    } else if !o.skipped {
      PathMore(o.messages, Message(data, o.wEpoch, isCcs), 0, 0, o.sent, o.written, o.offset);
    }
  }

  lemma PathEmpty(ms: seq<Message>, w: nat, off: nat)
    ensures Path(ms, w, off, [], w, off) && Path(ms, w, off, Flatten([]), w, off)
  {
  }

  /** A packet, sent, refused or failed, keeps the account. */
  lemma SendKeepsFlight(o: Outbox, mtu: nat, taken: bool)
    requires OutboxOk(o) && Positioned(o) && FlightOk(o) && o.written < |o.messages|
    ensures var o' := SendPacket(o, mtu, taken);
            OutboxOk(o') && Positioned(o') && FlightOk(o') && o'.messages == o.messages
  {
    hide SealLoop, Skips, Path, Finals, Positioned, TotalSize, Final;
    var p := SealNextPacket(o, mtu);
    ReachedSelf(o);
    PacketPath(o, o, mtu, mtu, []);
    if !p.ok {
      SkipsIff(o, o, mtu, []);
      FailedPacket(o, mtu, []);
      PositionedAgain(p.o, p.o.(skipped := o.skipped || Skips(o, mtu, false)));
      if Skips(o, mtu, false) && !o.skipped {
        PathFinals(o.messages, 0, 0, o.sent, o.written, o.offset);
      }
    } else if taken {
      PathFinals(o.messages, o.written, o.offset, p.records, p.o.written, p.o.offset);
      FinalsCat(o.sent, p.records);
      if !o.skipped {
        PathTrans(o.messages, 0, 0, o.sent, o.written, o.offset, p.records, p.o.written, p.o.offset);
      }
      PositionedAgain(p.o, p.o.(sent := o.sent + p.records));
    } else {
      PositionedAgain(o, p.o.(written := o.written, offset := o.offset));
    }
  }

  /** The records are one run per message of the flight, each tiling its message, and no others. */
  predicate Written(ms: seq<Message>, sent: seq<Sealed>)
  {
    && Path(ms, 0, 0, sent, |ms|, 0)
    && var runs := Runs(ms, 0, 0, sent);
       Flatten(runs) == sent && |runs| == |ms| && TilesAll(ms, 0, 0, runs)
  }

  /** A flight written to its end, over however many calls, tiles every one of its messages exactly
    * if none was skipped. */
  lemma FlightComplete(o: Outbox)
    requires OutboxOk(o) && Positioned(o) && FlightOk(o) && o.written == |o.messages|
    ensures Written(o.messages, o.sent) <==> !o.skipped
  {
    hide Path, Finals;
    FlightOkIff(o);
    if !o.skipped { FlightTiled(o.messages, 0, 0, o.sent); }
  }

  // ---------------------------------------------------------------- a skipped message

  /** Only an MTU above 64 KiB, a counter within a flight of its end, or a message of an epoch too old
    * (or none at all) can make a packet skip messages. */
  lemma {:induction false} SkipsNeeds(o: Outbox, maxOut: nat, begun: bool)
    requires o.written <= |o.messages| && Skips(o, maxOut, begun)
    ensures || maxOut >= 0x1_0000 + RT_HEADER_LENGTH
            || o.number + (|o.messages| - o.written) >= SEQ_LIMIT || o.lastNumber + (|o.messages| - o.written) >= SEQ_LIMIT
            || exists i :: o.written <= i < |o.messages| && Unsendable(o.(written := i))
    decreases |o.messages| - o.written
  {
    hide Content, UsedAead, Aead.Growth;
    if Unsendable(o) {
      assert Unsendable(o.(written := o.written));
    } else if !Overflows(o, maxOut) {
      var next := AfterWhole(o);
      SkipsNeeds(next, maxOut - RT_HEADER_LENGTH - CiphertextSize(o, maxOut), true);
      if i :| next.written <= i < |next.messages| && Unsendable(next.(written := i)) {
        assert Unsendable(o.(written := i));
      }
    }
  }

  /** An empty message and one longer than a record, unencrypted. */
  function SmallThenLarge(): Outbox
  {
    Outbox([Message(Serialize(Whole(Msg(14, []), 0)), 0, false), Message(Serialize(Whole(Msg(11, seq(70000, i => 0)), 1)), 0, false)],
           0, 0, true, false, 2, 0, 0, 0, Aead(0, 0, 0), Aead(0, 0, 0), [], [], false)
  }

  lemma PlainGrowth(n: nat)
    ensures Aead(0, 0, 0).Growth(n) == 0 && Aead(0, 0, 0).MaxOverhead() == 0
  {
  }

  lemma PlainSizes(o: Outbox, f: Fragment, maxOut: nat)
    requires o.written < |o.messages| && !o.messages[o.written].isCcs && !Unsendable(o)
    requires LeastSize(o) <= maxOut && UsedAead(o, UsesPrevious(o)) == Aead(0, 0, 0)
    requires Content(o.messages[o.written]) == Some(f) && o.offset == 0
    ensures CiphertextSize(o, maxOut) == 12 + if |f.body| > maxOut - 25 then maxOut - 25 else |f.body|
    ensures WholeFits(o, maxOut) == (|f.body| <= maxOut - 25)
  {
    hide Content, UsedAead, UsesPrevious, Unsendable, Aead.Growth, Aead.MaxOverhead;
    PlainGrowth(PayloadSize(o, maxOut));
  }

  /** The first of two unencrypted messages fits, the second is too long for a record. */
  lemma SecondOverflows(o: Outbox)
    requires |o.messages| == 2 && o.written == 0 && o.offset == 0 && o.wEpoch == 0 && o.number == 0
    requires o.aead == Aead(0, 0, 0) && o.messages[0].epoch == 0 && o.messages[1].epoch == 0
    requires !o.messages[0].isCcs && Content(o.messages[0]).Some? && Content(o.messages[0]).value.body == []
    requires !o.messages[1].isCcs && Content(o.messages[1]).Some? && |Content(o.messages[1]).value.body| == 70000
    ensures Skips(o, 0x2_0000, false)
  {
    hide Content, Part, CiphertextSize, WholeFits;
    var next := AfterWhole(o);
    PlainSizes(o, Content(o.messages[0]).value, 0x2_0000);
    PlainSizes(next, Content(o.messages[1]).value, 0x2_0000 - 25);
    assert Skips(next, 0x2_0000 - 25, true);
  }

  /** At an MTU of 128 KiB the first message of this flight is sealed, the second fails, and sending
    * goes on with the second: the first is skipped. */
  lemma SmallThenLargeSkips()
    ensures var o := SmallThenLarge();
            && Skips(o, 0x2_0000, false)
            && var o' := SendPacket(o, 0x2_0000, true);
               o'.written == 1 && o'.sent == [] && o'.skipped
  {
    hide SealLoop, Serialize, Content, Skips;
    var o := SmallThenLarge();
    WholeContent(Msg(14, []), 0);
    WholeContent(Msg(11, seq(70000, i => 0)), 1);
    SecondOverflows(o);
    NextPositioned(o);
    SkipsIff(o, o, 0x2_0000, []);
    FailedPacket(o, 0x2_0000, []);
    assert SealNextPacket(o, 0x2_0000).o.sent == o.sent by { ReachedSelf(o); PacketPath(o, o, 0x2_0000, 0x2_0000, []); }
  }

  lemma WholeContent(m: Msg, seq_: nat)
    requires m.kind < 0x100 && |m.body| < 0x100_0000 && seq_ < 0x1_0000
    ensures Content(Message(Serialize(Whole(m, seq_)), 0, false)) == Some(Whole(m, seq_))
  {
    hide Serialize, ParseFragment;
    FragmentRoundTrip(Whole(m, seq_), []);
    assert Serialize(Whole(m, seq_)) + [] == Serialize(Whole(m, seq_));
  }

  // ---------------------------------------------------------------- a change of the write epoch

  /** A message queued before the change is sealed after it as it would have been before, under its
    * own epoch, cipher and counter; a second change makes it unsendable. */
  lemma EpochChangeKeepsFlight(o: Outbox, aead: Aead, maxOut: nat)
    requires o.written < |o.messages| && o.messages[o.written].epoch <= o.wEpoch
    ensures var o' := SetWriteState(o, aead);
            if o.messages[o.written].epoch == o.wEpoch
            then SealNextMessage(o', maxOut).ret == SealNextMessage(o, maxOut).ret
            else Unsendable(o') && SealNextMessage(o', maxOut).ret == SealError
  {
    hide Content, Serialize, SealRecord, Aead.MaxOverhead;
    var o' := SetWriteState(o, aead);
    forall kind, payload ensures SealRecord(o', kind, payload, true, maxOut).ret == SealRecord(o, kind, payload, false, maxOut).ret {
      EpochChangeKeepsRecord(o, aead, kind, payload, maxOut);
    }
  }

  lemma EpochChangeKeepsRecord(o: Outbox, aead: Aead, kind: nat, payload: seq<byte>, maxOut: nat)
    ensures SealRecord(SetWriteState(o, aead), kind, payload, true, maxOut).ret == SealRecord(o, kind, payload, false, maxOut).ret
  {
    hide Aead.Growth;
  }
}
