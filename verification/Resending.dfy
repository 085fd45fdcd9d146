/**
 * A flight sent to its end without a failure (send_flight in d1_both.cc): when the guards of the
 * seals let every packet through, how many records that takes, and what it leaves on the network.
 */
module Resending {
  import opened Bytes
  import opened Fragments
  import opened DtlsRecord
  import opened Outgoing
  import opened Flights
  import opened Numbering
  import opened Account
  import opened Delivery

  // ---------------------------------------------------------------- how many records

  /** How many records what is left of a message can take: a byte each, or one for nothing. */
  function RecordsLeft(m: Message, off: nat): (n: nat)
    ensures n >= 1
  {
    if m.isCcs || Content(m).None? || off >= |Content(m).value.body| then 1 else |Content(m).value.body| - off
  }

  /** And what is left of a flight. */
  function Budget(ms: seq<Message>, w: nat, off: nat): (n: nat)
    requires w <= |ms|
    ensures n >= |ms| - w
    decreases |ms| - w
  {
    if w == |ms| then 0 else RecordsLeft(ms[w], off) + Budget(ms, w + 1, 0)
  }

  lemma {:induction false} PathBudget(ms: seq<Message>, w: nat, off: nat, rs: seq<Sealed>, w': nat, off': nat)
    requires w <= |ms| && w' <= |ms| && Path(ms, w, off, rs, w', off')
    ensures |rs| + Budget(ms, w', off') <= Budget(ms, w, off)
    decreases |rs|
  {
    hide Carries, Finishes, RecordsLeft, Budget;
    if rs != [] {
      BudgetHead(ms, w, off);
      if Finishes(ms[w], off, rs[0]) {
        PathBudget(ms, w + 1, 0, rs[1..], w', off');
      } else {
        PathBudget(ms, w, off + BodyLen(rs[0]), rs[1..], w', off');
        BudgetHead(ms, w, off + BodyLen(rs[0]));
        RecordBudget(ms[w], off, rs[0]);
      }
    }
  }

  lemma BudgetHead(ms: seq<Message>, w: nat, off: nat)
    requires w < |ms|
    ensures Budget(ms, w, off) == RecordsLeft(ms[w], off) + Budget(ms, w + 1, 0)
  {
    hide RecordsLeft;
  }

  lemma RecordBudget(m: Message, off: nat, r: Sealed)
    requires Carries(m, off, r) && !Finishes(m, off, r)
    ensures RecordsLeft(m, off + BodyLen(r)) < RecordsLeft(m, off)
  {
    hide Content, Serialize;
  }

  // ---------------------------------------------------------------- no packet fails

  /** The ciphers of the current and the previous epoch leave room for a byte of a message, the MTU
    * leaves none for more than a record can hold, and every message has one of those epochs. */
  predicate Ready(o: Outbox, mtu: nat)
  {
    && RT_HEADER_LENGTH + HM_HEADER_LENGTH + 1 + o.aead.MaxOverhead() <= mtu
    && RT_HEADER_LENGTH + HM_HEADER_LENGTH + 1 + o.lastAead.MaxOverhead() <= mtu
    && mtu <= RT_HEADER_LENGTH + MAX_PLAIN_LENGTH
    && forall i :: 0 <= i < |o.messages| ==> LiveIn(o, o.messages[i])
  }

  predicate LiveIn(o: Outbox, m: Message)
  {
    (m.epoch == o.wEpoch || (o.wEpoch >= 1 && m.epoch == o.wEpoch - 1)) && (m.isCcs || Content(m).Some?)
  }

  /** Both epochs have numbers for n more records. */
  predicate Room(o: Outbox, n: nat)
  {
    Count(o.log, o.wEpoch) + n < SEQ_LIMIT && (o.wEpoch >= 1 ==> Count(o.log, o.wEpoch - 1) + n < SEQ_LIMIT)
  }

  lemma PacketSucceeds(o: Outbox, mtu: nat)
    requires Accounted(o) && Ready(o, mtu) && o.written < |o.messages| && Room(o, Budget(o.messages, o.written, o.offset))
    ensures SealNextPacket(o, mtu).ok
  {
    hide SealLoop, FlightOk, Numbered, Count, Skips, Budget, Content, Aead.Growth;
    var n := Budget(o.messages, o.written, o.offset);
    WrapBelow(Count(o.log, o.wEpoch));
    if o.wEpoch >= 1 { WrapBelow(Count(o.log, o.wEpoch - 1)); }
    assert LiveIn(o, o.messages[o.written]);
    FirstFits(o, mtu);
    PacketFailsIff(o, mtu);
    NoSkip(o, mtu, false);
  }

  lemma FirstFits(o: Outbox, mtu: nat)
    requires Ready(o, mtu) && o.written < |o.messages| && LiveIn(o, o.messages[o.written])
    requires o.number + 1 < SEQ_LIMIT && (o.wEpoch >= 1 ==> o.lastNumber + 1 < SEQ_LIMIT)
    ensures !Unsendable(o) && LeastSize(o) <= mtu && !Overflows(o, mtu)
  {
    hide Content, Aead.Growth;
  }

  lemma {:induction false} NoSkip(o: Outbox, maxOut: nat, begun: bool)
    requires o.written <= |o.messages| && maxOut <= RT_HEADER_LENGTH + MAX_PLAIN_LENGTH
    requires forall i :: o.written <= i < |o.messages| ==> LiveIn(o, o.messages[i])
    requires o.number + (|o.messages| - o.written) < SEQ_LIMIT
    requires o.wEpoch >= 1 ==> o.lastNumber + (|o.messages| - o.written) < SEQ_LIMIT
    ensures !Skips(o, maxOut, begun)
    decreases |o.messages| - o.written
  {
    hide Content, Aead.Growth;
    if o.written < |o.messages| && LeastSize(o) <= maxOut {
      assert LiveIn(o, o.messages[o.written]);
      if WholeFits(o, maxOut) {
        var next := AfterWhole(o);
        forall i | next.written <= i < |next.messages| ensures LiveIn(next, next.messages[i]) {
          assert LiveIn(o, o.messages[i]);
        }
        NoSkip(next, maxOut - RT_HEADER_LENGTH - CiphertextSize(o, maxOut), true);
      }
    }
  }

  // ---------------------------------------------------------------- what a packet adds

  /** A record that is sealed goes to the end of the log, and fits. */
  lemma SealAdds(o: Outbox, maxOut: nat)
    requires o.written < |o.messages|
    ensures var s := SealNextMessage(o, maxOut);
            && (s.ret.NoProgress? ==> s.o == o)
            && (s.ret.Progress? ==>
                  s.o.log == o.log + [s.ret.record] && RT_HEADER_LENGTH + |s.ret.record.payload| <= s.ret.record.size <= maxOut)
  {
    hide Content, Serialize, SealRecord;
    forall kind, payload, previous | previous ==> o.wEpoch >= 1
      ensures var s := SealRecord(o, kind, payload, previous, maxOut);
              s.ret.Progress? ==>
                s.o.log == o.log + [s.ret.record] && RT_HEADER_LENGTH + |s.ret.record.payload| <= s.ret.record.size <= maxOut
    {
      RecordAdds(o, kind, payload, previous, maxOut);
    }
  }

  lemma RecordAdds(o: Outbox, kind: nat, payload: seq<byte>, previous: bool, maxOut: nat)
    requires previous ==> o.wEpoch >= 1
    ensures var s := SealRecord(o, kind, payload, previous, maxOut);
            s.ret.Progress? ==>
              s.o.log == o.log + [s.ret.record] && RT_HEADER_LENGTH + |s.ret.record.payload| <= s.ret.record.size <= maxOut
  {
  }

  /** No record holds more than fits into the room there was for it. */
  predicate Small(rs: seq<Sealed>, max: nat)
  {
    forall r :: r in rs ==> RT_HEADER_LENGTH + |r.payload| <= max
  }

  /** A packet that is made consists of the records that were added to the log, in order. */
  lemma {:induction false} PacketAdds(o: Outbox, maxOut: nat, mtu: nat, sealed: seq<Sealed>)
    requires o.written <= |o.messages| && maxOut <= mtu && Small(sealed, mtu)
    ensures var p := SealLoop(o, maxOut, sealed);
            p.ok ==> sealed <= p.records && p.o.log == o.log + p.records[|sealed|..] && Small(p.records, mtu)
    decreases |o.messages| - o.written
  {
    hide SealNextMessage;
    if o.written < |o.messages| {
      SealAdds(o, maxOut);
      SealKeepsQueue(o, maxOut);
      var s := SealNextMessage(o, maxOut);
      if s.ret.Progress? {
        var r := s.ret.record;
        hide Small;
        SmallSnoc(sealed, r, mtu);
        if s.ret.whole {
          var next := s.o.(written := o.written + 1);
          PacketAdds(next, maxOut - r.size, mtu, sealed + [r]);
          AddedFirst(sealed, r, SealLoop(next, maxOut - r.size, sealed + [r]).records, o.log);
        }
      }
    }
  }

  lemma SmallSnoc(rs: seq<Sealed>, r: Sealed, max: nat)
    requires Small(rs, max) && RT_HEADER_LENGTH + |r.payload| <= max
    ensures Small(rs + [r], max) && rs <= rs + [r] && (rs + [r])[|rs|..] == [r]
  {
  }

  lemma AddedFirst(sealed: seq<Sealed>, r: Sealed, records: seq<Sealed>, log: seq<Sealed>)
    ensures sealed + [r] <= records ==>
              sealed <= records && (log + [r]) + records[|sealed + [r]|..] == log + records[|sealed|..]
  {
    if sealed + [r] <= records {
      assert records[|sealed|..] == [r] + records[|sealed| + 1..];
    }
  }

  // ---------------------------------------------------------------- the whole flight

  /** Since `log` all that has been sealed is what has been sent, and it is on the network. */
  ghost predicate SentAll(w: World, log: seq<Sealed>, mtu: nat)
  {
    && w.o.log == log + w.o.sent && !w.o.skipped && Small(w.o.sent, mtu)
    && forall r :: r in w.o.sent ==> r in w.net
  }

  /** Nothing but the sending differs. */
  predicate SameButSent(w: World, w': World)
  {
    w' == w.(o := w.o.(written := w'.o.written, offset := w'.o.offset, number := w'.o.number, lastNumber := w'.o.lastNumber,
                       log := w'.o.log, sent := w'.o.sent, skipped := w'.o.skipped), net := w'.net)
  }

  /** A packet is made of the next records, and there are numbers for the rest. */
  lemma PacketMoves(o: Outbox, mtu: nat)
    requires Accounted(o) && Ready(o, mtu) && o.written < |o.messages| && Room(o, Budget(o.messages, o.written, o.offset))
    ensures var p := SealNextPacket(o, mtu);
            && p.ok && Small(p.records, mtu) && p.o.written <= |o.messages|
            && p.o == o.(number := p.o.number, lastNumber := p.o.lastNumber, written := p.o.written, offset := p.o.offset,
                         log := o.log + p.records)
            && Budget(o.messages, p.o.written, p.o.offset) < Budget(o.messages, o.written, o.offset)
            && Room(p.o, Budget(o.messages, p.o.written, p.o.offset))
  {
    PacketSucceeds(o, mtu);
    AccountedParts(o);
    hide SealLoop, Path, Positioned, Accounted, Ready, Budget, TotalSize, Room;
    PacketAdds(o, mtu, mtu, []);
    ReachedSelf(o);
    PacketPath(o, o, mtu, mtu, []);
    var p := SealNextPacket(o, mtu);
    PathBudget(o.messages, o.written, o.offset, p.records, p.o.written, p.o.offset);
    RoomLeft(o, p.o, p.records, Budget(o.messages, o.written, o.offset), Budget(o.messages, p.o.written, p.o.offset));
  }

  lemma RoomLeft(o: Outbox, o': Outbox, rs: seq<Sealed>, n: nat, n': nat)
    requires Room(o, n) && |rs| + n' <= n && o'.log == o.log + rs && o'.wEpoch == o.wEpoch
    ensures Room(o', n')
  {
    hide Count;
    CountCat(o.log, rs, o.wEpoch);
    if o.wEpoch >= 1 { CountCat(o.log, rs, o.wEpoch - 1); }
  }

  lemma SendOne(w: World, log: seq<Sealed>, mtu: nat, maxLen: nat)
    requires Inv(w) && Sound(w) && SentAll(w, log, mtu) && Ready(w.o, mtu) && w.o.written < |w.o.messages|
    requires Room(w.o, Budget(w.o.messages, w.o.written, w.o.offset))
    ensures var w' := Do(w, Send(mtu, true), maxLen);
            && SameButSent(w, w') && SentAll(w', log, mtu) && w'.o.written <= |w.o.messages|
            && Budget(w.o.messages, w'.o.written, w'.o.offset) < Budget(w.o.messages, w.o.written, w.o.offset)
            && Room(w'.o, Budget(w.o.messages, w'.o.written, w'.o.offset))
  {
    hide Do, Inv, Sound, Accounted, Entries, Ready, Budget, Room, SealNextPacket, Delivery.SendPacket, SentAll, Count, Small;
    InvEntries(w);
    SendIs(w, mtu, maxLen);
    PacketMoves(w.o, mtu);
    var p := SealNextPacket(w.o, mtu);
    PacketTaken(w, mtu);
    TakenAll(w, p, log, mtu);
    RoomSame(p.o, p.o.(sent := w.o.sent + p.records), Budget(w.o.messages, p.o.written, p.o.offset));
  }

  lemma RoomSame(o: Outbox, o': Outbox, n: nat)
    requires Room(o, n) && o'.log == o.log && o'.wEpoch == o.wEpoch
    ensures Room(o', n)
  {
    hide Count;
  }

  lemma SendIs(w: World, mtu: nat, maxLen: nat)
    requires Sound(w)
    ensures Do(w, Send(mtu, true), maxLen) == Delivery.SendPacket(w, mtu, true)
  {
    hide Sound, Delivery.SendPacket;
  }

  lemma PacketTaken(w: World, mtu: nat)
    requires w.o.written < |w.o.messages| && SealNextPacket(w.o, mtu).ok
    ensures var p := SealNextPacket(w.o, mtu);
            Delivery.SendPacket(w, mtu, true) == w.(o := p.o.(sent := w.o.sent + p.records), net := w.net + AsSet(p.records))
  {
    hide SealNextPacket;
  }

  lemma TakenAll(w: World, p: Packet, log: seq<Sealed>, mtu: nat)
    requires SentAll(w, log, mtu) && Small(p.records, mtu) && p.o.log == w.o.log + p.records && p.o.skipped == w.o.skipped
    ensures SentAll(w.(o := p.o.(sent := w.o.sent + p.records), net := w.net + AsSet(p.records)), log, mtu)
  {
    assert (log + w.o.sent) + p.records == log + (w.o.sent + p.records);
    SmallCat(w.o.sent, p.records, mtu);
  }

  lemma SmallCat(a: seq<Sealed>, b: seq<Sealed>, max: nat)
    requires Small(a, max) && Small(b, max)
    ensures Small(a + b, max)
  {
  }

  /** The flight is sent to its end: what has been written tiles it, in the order of the log. */
  lemma {:induction false} SendRest(w: World, log: seq<Sealed>, mtu: nat, maxLen: nat) returns (actions: seq<Action>)
    requires Inv(w) && Sound(w) && SentAll(w, log, mtu) && Ready(w.o, mtu)
    requires w.o.written <= |w.o.messages| && Room(w.o, Budget(w.o.messages, w.o.written, w.o.offset))
    ensures var w' := Run(w, actions, maxLen);
            SameButSent(w, w') && SentAll(w', log, mtu) && Room(w'.o, 0) && Written(w.o.messages, w'.o.sent)
    ensures forall a :: a in actions ==> a == Send(mtu, true)
    decreases Budget(w.o.messages, w.o.written, w.o.offset)
  {
    hide Do, Inv, Sound, Ready, Room, SentAll;
    if w.o.written == |w.o.messages| {
      RunNone(w, maxLen);
      AllWritten(w, log, mtu);
      return [];
    }
    SendOne(w, log, mtu, maxLen);
    StepKeeps(w, Send(mtu, true), maxLen);
    RunFirst(w, Send(mtu, true), [], maxLen);
    var w1 := Do(w, Send(mtu, true), maxLen);
    SameReady(w, w1, mtu);
    var rest := SendRest(w1, log, mtu, maxLen);
    RunFirst(w, Send(mtu, true), rest, maxLen);
    actions := [Send(mtu, true)] + rest;
  }

  lemma SameReady(w: World, w': World, mtu: nat)
    requires SameButSent(w, w') && Ready(w.o, mtu)
    ensures Ready(w'.o, mtu) && w'.o.messages == w.o.messages
  {
    forall i | 0 <= i < |w'.o.messages| ensures LiveIn(w'.o, w'.o.messages[i]) {
      assert LiveIn(w.o, w.o.messages[i]);
    }
  }

  lemma AllWritten(w: World, log: seq<Sealed>, mtu: nat)
    requires Inv(w) && SentAll(w, log, mtu) && w.o.written == |w.o.messages| && Room(w.o, Budget(w.o.messages, w.o.written, w.o.offset))
    ensures Written(w.o.messages, w.o.sent) && Room(w.o, 0) && SameButSent(w, w)
  {
    InvEntries(w);
    AccountedFlight(w.o);
    hide FlightOk, Written;
    FlightComplete(w.o);
  }

  lemma {:induction false} CountCat(a: seq<Sealed>, b: seq<Sealed>, epoch: nat)
    ensures Count(a, epoch) <= Count(a + b, epoch) <= Count(a, epoch) + |b|
  {
    if b == [] {
      assert a + b == a;
    } else {
      var n := |b| - 1;
      assert a + b == (a + b[..n]) + [b[n]];
      CountCat(a, b[..n], epoch);
      CountSnoc(a + b[..n], b[n], epoch);
    }
  }
}
