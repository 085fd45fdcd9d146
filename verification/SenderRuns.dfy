/**
 * What holds of the DTLS sender in every run of Delivery's world: flights are written without gap or
 * overlap, record numbers are used once, and the last flight is kept until it is answered, each with
 * the exact condition under which it is not so.
 */
module SenderRuns {
  import opened Bytes
  import opened Fragments
  import opened DtlsRecord
  import opened Incoming
  import opened Outgoing
  import opened Flights
  import opened Numbering
  import opened Account
  import opened Delivery

  lemma RunAccounted(actions: seq<Action>, maxLen: nat)
    ensures Accounted(Run(Start(), actions, maxLen).o)
    ensures forall r :: r in Run(Start(), actions, maxLen).net ==> r in Run(Start(), actions, maxLen).o.log
  {
    StartInv();
    hide Accounted;
    RunKeeps(Start(), actions, maxLen);
  }

  // ---------------------------------------------------------------- flights

  /** The step begins or rewinds a flight. */
  predicate Restarts(w: World, a: Action)
  {
    || a.Rewind?
    || (a.Finish? && w.o.hasReply)
    || (w.o.complete && (a.QueueCcs? || (a.Queue? && Sendable(Msg(a.kind, a.body), w.o.writeSeq))))
  }

  /** A message is skipped by one kind of step only: a packet of which the guards say beforehand that
    * a record after the first messages cannot be sealed. */
  lemma SkippedBy(w: World, a: Action, maxLen: nat)
    requires Sound(w) && Accounted(w.o)
    ensures Do(w, a, maxLen).o.skipped <==>
            || (w.o.skipped && !Restarts(w, a))
            || (a.Send? && w.o.written < |w.o.messages| && Skips(w.o, a.mtu, false))
  {
    if a.Send? {
      hide Accounted, Ring, Flights.SendPacket, Skips;
      if w.o.written < |w.o.messages| { PacketSkips(w.o, a.mtu, a.written); }
    } else {
      hide Accounted, OutboxOk, Ring, OpenHandshake, Skips, Serialize;
    }
  }

  lemma PacketSkips(o: Outbox, mtu: nat, taken: bool)
    requires Accounted(o) && o.written < |o.messages|
    ensures Flights.SendPacket(o, mtu, taken).skipped <==> o.skipped || Skips(o, mtu, false)
  {
    AccountedParts(o);
    hide Accounted, SealLoop, Skips, Positioned;
    if Skips(o, mtu, false) { SkipsOnlyFailing(o, mtu); }
    LoopKeepsOk(o, mtu, []);
  }

  /** Since the flight was last begun or rewound a packet was sent of which the guards said beforehand
    * that it would skip a message; `before` says so of what happened before these actions. */
  ghost predicate PassedOver(w: World, actions: seq<Action>, maxLen: nat, before: bool)
    requires Sound(w)
    decreases |actions|
  {
    if actions == [] then before
    else
      var a := actions[0];
      StepSound(w, a, maxLen);
      PassedOver(Do(w, a, maxLen), actions[1..], maxLen,
                 (before && !Restarts(w, a)) || (a.Send? && w.o.written < |w.o.messages| && Skips(w.o, a.mtu, false)))
  }

  lemma {:induction false} SkippedIffPassedOver(w: World, actions: seq<Action>, maxLen: nat)
    requires Inv(w)
    ensures Run(w, actions, maxLen).o.skipped <==> PassedOver(w, actions, maxLen, w.o.skipped)
    decreases |actions|
  {
    hide Inv, Accounted, Do, Skips, Restarts;
    InvAccounted(w);
    if actions != [] {
      SkippedBy(w, actions[0], maxLen);
      StepKeeps(w, actions[0], maxLen);
      SkippedIffPassedOver(Do(w, actions[0], maxLen), actions[1..], maxLen);
    }
  }

  lemma InvAccounted(w: World)
    requires Inv(w)
    ensures Sound(w) && Accounted(w.o)
  {
    InvParts(w);
  }

  /** In every run, what the transport has taken since the flight was begun or rewound is the flight
    * up to the current position, and once that is the end it tiles every message of the flight,
    * whatever the MTUs, the refused packets and the number of calls: exactly if the guards of the
    * seals let no packet skip a message. */
  lemma {:induction false} FlightIsTiled(actions: seq<Action>, maxLen: nat)
    ensures var o := Run(Start(), actions, maxLen).o;
            var skipped := PassedOver(Start(), actions, maxLen, false);
            && (Path(o.messages, 0, 0, o.sent, o.written, o.offset) <==> !skipped)
            && (o.written == |o.messages| ==> (Written(o.messages, o.sent) <==> !skipped))
  {
    RunAccounted(actions, maxLen);
    StartInv();
    SkippedIffPassedOver(Start(), actions, maxLen);
    hide Run, Path, Written, NumbersOk, PassedOver;
    var o := Run(Start(), actions, maxLen).o;
    AccountedFlight(o);
    FlightOkIff(o);
    if o.written == |o.messages| { FlightComplete(o); }
  }

  /** And it happens: an empty message, one of 70000 bytes, and an MTU of 128 KiB. The first message
    * is passed over without a byte on the network. */
  lemma {:induction false} MessageSkipped(maxLen: nat)
    ensures var w := Run(Start(), [Queue(14, []), Queue(11, seq(70000, i => 0)), Flush, Send(0x2_0000, true)], maxLen);
            w.net == {} && w.o.written == 1 && w.o.sent == [] && w.o.skipped
  {
    hide Do, Run;
    var small, large, send := Queue(14, []), Queue(11, seq(70000, i => 0)), Send(0x2_0000, true);
    var w := TwoQueued(maxLen);
    FirstPassedOver(w, maxLen);
    RunThree(Start(), small, large, Flush, [send], maxLen);
    assert [small] + ([large] + ([Flush] + [send])) == [small, large, Flush, send];
    RunFirst(w, send, [], maxLen);
    assert [send] + [] == [send];
    RunNone(Do(w, send, maxLen), maxLen);
  }

  lemma FirstPassedOver(w: World, maxLen: nat)
    requires Sound(w) && w.o == SmallThenLarge() && w.net == {}
    ensures var w' := Do(w, Send(0x2_0000, true), maxLen);
            w'.net == {} && w'.o.written == 1 && w'.o.sent == [] && w'.o.skipped
  {
    hide Serialize, Flights.SendPacket, Skips, SealLoop, Ring;
    SmallThenLargeSkips();
    NextPositioned(w.o);
    SkipsOnlyFailing(w.o, 0x2_0000);
  }

  /** A small and a large message, queued and flushed. */
  lemma TwoQueued(maxLen: nat) returns (w: World)
    ensures Sound(Do(Start(), Queue(14, []), maxLen))
    ensures Sound(Do(Do(Start(), Queue(14, []), maxLen), Queue(11, seq(70000, i => 0)), maxLen))
    ensures w == Do(Do(Do(Start(), Queue(14, []), maxLen), Queue(11, seq(70000, i => 0)), maxLen), Flush, maxLen)
    ensures Sound(w) && w.o == SmallThenLarge() && w.net == {}
  {
    hide Serialize, Flights.SendPacket, Skips, SealLoop, Ring;
    StepSound(Start(), Queue(14, []), maxLen);
    var w1 := Do(Start(), Queue(14, []), maxLen);
    StepSound(w1, Queue(11, seq(70000, i => 0)), maxLen);
    var w2 := Do(w1, Queue(11, seq(70000, i => 0)), maxLen);
    StepSound(w2, Flush, maxLen);
    w := Do(w2, Flush, maxLen);
  }

  lemma RunThree(w: World, a: Action, b: Action, c: Action, rest: seq<Action>, maxLen: nat)
    requires Sound(w)
    ensures Sound(Do(w, a, maxLen)) && Sound(Do(Do(w, a, maxLen), b, maxLen)) && Sound(Do(Do(Do(w, a, maxLen), b, maxLen), c, maxLen))
    ensures Run(w, [a] + ([b] + ([c] + rest)), maxLen) == Run(Do(Do(Do(w, a, maxLen), b, maxLen), c, maxLen), rest, maxLen)
  {
    hide Do, Sound, Run;
    RunFirst(w, a, [b] + ([c] + rest), maxLen);
    RunFirst(Do(w, a, maxLen), b, [c] + rest, maxLen);
    RunFirst(Do(Do(w, a, maxLen), b, maxLen), c, rest, maxLen);
  }

  // ---------------------------------------------------------------- record numbers

  /** In every run no two sealed records, sent or not, share epoch and number exactly if no epoch has
    * sealed more than 2^48 records; and the number that would be used next, in the current or in the
    * previous epoch, has been used before exactly if that epoch has sealed 2^48 of them. */
  lemma {:induction false} SequenceNumbersUnique(actions: seq<Action>, maxLen: nat)
    ensures var w := Run(Start(), actions, maxLen);
            && (forall r :: r in w.net ==> r in w.o.log)
            && (Distinct(w.o.log) <==> forall epoch: nat :: Count(w.o.log, epoch) <= 0x1_0000_0000_0000)
            && (Taken(w.o.log, w.o.wEpoch, w.o.number) <==> Count(w.o.log, w.o.wEpoch) >= 0x1_0000_0000_0000)
            && (w.o.wEpoch >= 1 ==>
                  (Taken(w.o.log, w.o.wEpoch - 1, w.o.lastNumber) <==> Count(w.o.log, w.o.wEpoch - 1) >= 0x1_0000_0000_0000))
  {
    RunAccounted(actions, maxLen);
    hide Run, Count, Distinct, Taken, Numbered, Wrap, FlightOk;
    var o := Run(Start(), actions, maxLen).o;
    DistinctIff(o.log);
    TakenIff(o.log, o.wEpoch);
    if o.wEpoch >= 1 { TakenIff(o.log, o.wEpoch - 1); }
  }

  /** A flight of one unencrypted ChangeCipherSpec, to be sent from its start. */
  predicate Parked(o: Outbox)
  {
    && o.messages == [Message([], 0, true)] && o.written == 0 && o.offset == 0
    && o.wEpoch == 0 && o.aead == Aead(0, 0, 0)
  }

  /** Sent and rewound, it has taken one more number, even the last one. */
  lemma SealedOnce(w: World, maxLen: nat)
    requires Sound(w) && Parked(w.o)
    ensures var w1 := Do(w, Send(14, true), maxLen);
            Sound(w1) && var w2 := Do(w1, Rewind, maxLen);
            Sound(w2) && Parked(w2.o) && Count(w2.o.log, 0) == Count(w.o.log, 0) + 1
  {
    ParkedPacket(w.o);
    hide Ring, Count, SealNextPacket, Skips;
    StepSound(w, Send(14, true), maxLen);
    StepSound(Do(w, Send(14, true), maxLen), Rewind, maxLen);
  }

  lemma ParkedPacket(o: Outbox)
    requires OutboxOk(o) && Parked(o)
    ensures var p := SealNextPacket(o, 14).o;
            && p == o.(number := p.number, written := p.written, log := p.log)
            && Count(p.log, 0) == Count(o.log, 0) + 1
  {
    hide Count;
    var s := SealNextMessage(o, 14);
    var r := Sealed(RT_CHANGE_CIPHER_SPEC, 0, o.number, [MT_CCS], 14);
    assert s == SealRecord(o, RT_CHANGE_CIPHER_SPEC, [MT_CCS], false, 14) && s.o.log == o.log + [r];
    CountSnoc(o.log, r, 0);
    if s.ret.Progress? {
      var next := s.o.(written := 1);
      assert SealLoop(next, 14 - r.size, [] + [r]) == Packet(true, next, [] + [r]);
    }
  }

  lemma {:induction false} SealedOften(w: World, n: nat, maxLen: nat) returns (actions: seq<Action>)
    requires Sound(w) && Parked(w.o)
    ensures Count(Run(w, actions, maxLen).o.log, 0) == Count(w.o.log, 0) + n
    decreases n
  {
    hide Do, Sound, Parked, Run, Count;
    actions := [];
    RunNone(w, maxLen);
    if n > 0 {
      SealedOnce(w, maxLen);
      var w1 := Do(w, Send(14, true), maxLen);
      var w2 := Do(w1, Rewind, maxLen);
      var rest := SealedOften(w2, n - 1, maxLen);
      RunFirst(w1, Rewind, rest, maxLen);
      RunFirst(w, Send(14, true), [Rewind] + rest, maxLen);
      actions := [Send(14, true)] + ([Rewind] + rest);
    }
  }

  /** Any number of records can be sealed in one epoch; from 2^48 + 1 on numbers repeat. */
  lemma {:induction false} NumbersRunOut(n: nat, maxLen: nat) returns (actions: seq<Action>)
    ensures var log := Run(Start(), actions, maxLen).o.log;
            Count(log, 0) == n && (n > 0x1_0000_0000_0000 ==> !Distinct(log))
  {
    var w := Do(Do(Start(), QueueCcs, maxLen), Flush, maxLen) by { StepSound(Start(), QueueCcs, maxLen); }
    assert Parked(w.o) && Count(w.o.log, 0) == 0;
    hide Do, Sound, Parked, Run, Count, Start;
    var rest := SealedOften(w, n, maxLen);
    RunFirst(Start(), QueueCcs, [Flush] + rest, maxLen);
    RunFirst(Do(Start(), QueueCcs, maxLen), Flush, rest, maxLen);
    actions := [QueueCcs] + ([Flush] + rest);
    RunAccounted(actions, maxLen);
    NumbersRepeat(Run(Start(), actions, maxLen).o, n);
  }

  lemma NumbersRepeat(o: Outbox, n: nat)
    requires Accounted(o) && Count(o.log, 0) == n
    ensures n > SEQ_LIMIT ==> !Distinct(o.log)
  {
    hide Count, Distinct, FlightOk;
    if n > SEQ_LIMIT { OverfullRepeats(o.log, 0); }
  }

  // ---------------------------------------------------------------- keeping the last flight

  /** A flight that nothing answers and no other flight follows can still be retransmitted, whatever
    * else happens, the end of the handshake included. */
  lemma {:induction false} UnansweredKept(w: World, actions: seq<Action>, maxLen: nat)
    requires Sound(w) && !w.o.hasReply
    requires forall a :: a in actions ==> !a.Reply? && !a.Queue? && !a.QueueCcs?
    ensures var w' := Run(w, actions, maxLen); w'.o.messages == w.o.messages && !w'.o.hasReply
    decreases |actions|
  {
    hide Do, Sound;
    if actions != [] {
      var a := actions[0];
      StepSound(w, a, maxLen);
      FlightStays(w, a, maxLen);
      assert a in actions && forall b :: b in actions[1..] ==> b in actions;
      UnansweredKept(Do(w, a, maxLen), actions[1..], maxLen);
    }
  }

  lemma FlightStays(w: World, a: Action, maxLen: nat)
    requires Sound(w) && !w.o.hasReply && !a.Reply? && !a.Queue? && !a.QueueCcs?
    ensures Do(w, a, maxLen).o.messages == w.o.messages && !Do(w, a, maxLen).o.hasReply
  {
    hide Skips, SealLoop, Ring, OpenHandshake;
    if a.Send? && w.o.written < |w.o.messages| { LoopKeepsOk(w.o, a.mtu, []); }
  }

  /** Once a completely queued flight has been flushed and answered, the end of the handshake drops
    * it; before that it drops nothing. */
  lemma {:induction false} FinishDropsAnswered(actions: seq<Action>, maxLen: nat)
    ensures var w := Run(Start(), actions, maxLen);
            && Do(Do(Do(w, Flush, maxLen), Reply, maxLen), Finish, maxLen).o.messages == []
            && (!w.o.complete ==> Do(w, Finish, maxLen) == w)
  {
    RunAccounted(actions, maxLen);
    hide Run, Accounted;
    var w := Run(Start(), actions, maxLen);
    AccountedParts(w.o);
    AnsweredDropped(w, maxLen);
    if !w.o.complete { OpenKept(w, maxLen); }
  }

  lemma AnsweredDropped(w: World, maxLen: nat)
    requires Sound(w)
    ensures Sound(Do(w, Flush, maxLen)) && Sound(Do(Do(w, Flush, maxLen), Reply, maxLen))
    ensures Do(Do(Do(w, Flush, maxLen), Reply, maxLen), Finish, maxLen).o.messages == []
  {
    StepSound(w, Flush, maxLen);
    StepSound(Do(w, Flush, maxLen), Reply, maxLen);
    hide Sound, OpenHandshake;
  }

  lemma OpenKept(w: World, maxLen: nat)
    requires Sound(w) && !w.o.complete && !w.o.hasReply
    ensures Do(w, Finish, maxLen) == w
  {
    hide Sound, OpenHandshake;
  }

  // ---------------------------------------------------------------- the assertion in add_outgoing

  /** The assertion that a message can be queued fails exactly for an open flight that is full, or a
    * message above 4 GiB. */
  lemma QueueingAsserts(o: Outbox, isCcs: bool, data: seq<byte>)
    requires OutboxOk(o)
    ensures AddOutgoing(o, isCcs, data).None? <==> (!o.complete && |o.messages| == FLIGHT) || |data| > 0xFFFF_FFFF
  {
  }

  /** It can be reached: the eighth message queued without a flush in between. */
  lemma {:induction false} EighthMessageAsserts(n: nat, maxLen: nat)
    requires n <= FLIGHT
    ensures var w := Run(Start(), seq(n, i => QueueCcs), maxLen);
            && |w.o.messages| == n && !w.o.complete
            && (AddOutgoing(w.o, true, []).None? <==> n == FLIGHT)
  {
    QueueMany(Start(), n, maxLen);
  }

  lemma {:induction false} QueueMany(w: World, n: nat, maxLen: nat)
    requires Sound(w) && !w.o.complete && |w.o.messages| + n <= FLIGHT
    ensures var w' := Run(w, seq(n, i => QueueCcs), maxLen);
            |w'.o.messages| == |w.o.messages| + n && !w'.o.complete
    decreases n
  {
    hide Ring;
    if n > 0 {
      var actions := seq(n, i => QueueCcs);
      StepSound(w, QueueCcs, maxLen);
      assert actions[0] == QueueCcs && actions[1..] == seq(n - 1, i => QueueCcs);
      QueueMany(Do(w, QueueCcs, maxLen), n - 1, maxLen);
    }
  }
}
