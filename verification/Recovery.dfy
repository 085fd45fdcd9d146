/**
 * Liveness of the DTLS handshake transport end to end: whatever has been lost or reordered, as long
 * as the flight is still held, sending it again delivers every message of it.
 */
module Recovery {
  import opened Bytes
  import opened Fragments
  import opened DtlsRecord
  import opened Incoming
  import opened Outgoing
  import opened Tiling
  import opened Flights
  import opened Numbering
  import opened Account
  import opened Delivery
  import opened Arrival
  import opened Resending

  // ---------------------------------------------------------------- numbers the receiver takes

  /** Every number in the window is of a record that was sealed. */
  ghost predicate WindowSealed(w: World)
  {
    forall n :: n in w.window ==> Taken(w.o.log, w.b.rEpoch, n)
  }

  lemma {:induction false} RunWindow(w: World, actions: seq<Action>, maxLen: nat)
    requires Inv(w) && Sound(w) && WindowSealed(w)
    ensures WindowSealed(Run(w, actions, maxLen))
    decreases |actions|
  {
    hide Inv, Sound, Do, WindowSealed;
    if actions != [] {
      StepKeeps(w, actions[0], maxLen);
      StepWindow(w, actions[0], maxLen);
      RunFirst(w, actions[0], actions[1..], maxLen);
      RunWindow(Do(w, actions[0], maxLen), actions[1..], maxLen);
    }
  }

  lemma StepWindow(w: World, a: Action, maxLen: nat)
    requires Inv(w) && Sound(w) && WindowSealed(w)
    ensures WindowSealed(Do(w, a, maxLen))
  {
    if a.Arrive? {
      ArriveWindow(w, a.r, maxLen);
    } else {
      LogGrows(w, a, maxLen);
      WindowElsewhere(w, a, maxLen);
      hide Inv, Sound, Do, Taken;
      var w' := Do(w, a, maxLen);
      forall n | n in w'.window ensures Taken(w'.o.log, w'.b.rEpoch, n) {
        StillTaken(w.o.log, w'.o.log, w.b.rEpoch, n);
      }
    }
  }

  lemma StillTaken(log: seq<Sealed>, log': seq<Sealed>, epoch: nat, n: nat)
    requires log <= log' && Taken(log, epoch, n)
    ensures Taken(log', epoch, n)
  {
    var i :| 0 <= i < |log| && log[i].epoch == epoch && log[i].number == n;
    assert log'[i] == log[i];
  }

  lemma LogGrows(w: World, a: Action, maxLen: nat)
    requires Sound(w)
    ensures w.o.log <= Do(w, a, maxLen).o.log
  {
    hide Ring, SealLoop, Serialize, Skips;
    if a.Send? && w.o.written < |w.o.messages| { PacketLogged(w.o, a.mtu, []); }
  }

  lemma WindowElsewhere(w: World, a: Action, maxLen: nat)
    requires Sound(w) && !a.Arrive?
    ensures var w' := Do(w, a, maxLen); w'.window == {} || (w'.window == w.window && w'.b.rEpoch == w.b.rEpoch)
  {
    hide Ring, Serialize, AddOutgoing;
    if a.Send? { SendElsewhere(w, a.mtu, a.written); SendWindow(w, a.mtu, a.written); }
  }

  lemma SendWindow(w: World, mtu: nat, written: bool)
    requires w.o.written <= |w.o.messages|
    ensures Delivery.SendPacket(w, mtu, written).window == w.window
  {
    hide SealLoop;
  }

  lemma ArriveWindow(w: World, r: Sealed, maxLen: nat)
    requires Inv(w) && Sound(w) && WindowSealed(w)
    ensures WindowSealed(Do(w, Arrive(r), maxLen))
  {
    hide Inv, Sound, Do, Taken, OpenHandshake, Accepts;
    ReceivedIs(w, r, maxLen);
    if Accepts(w, r) { InNetLogged(w, r); }
  }

  lemma ReceivedIs(w: World, r: Sealed, maxLen: nat)
    requires Sound(w)
    ensures !Accepts(w, r) ==> Do(w, Arrive(r), maxLen) == w
    ensures Accepts(w, r) ==>
              && r in w.net && r.epoch == w.b.rEpoch
              && var w' := Do(w, Arrive(r), maxLen);
                 && w' == w.(b := OpenHandshake(w.b, r.kind, r.payload, w.b.rEpoch == 0, maxLen).b,
                             window := w.window + {r.number}, log := w.log + [(r.epoch, r.number)])
                 && w'.b.rEpoch == w.b.rEpoch && w'.b.readSeq == w.b.readSeq
  {
    hide OpenHandshake, OutboxOk;
  }

  lemma InNetLogged(w: World, r: Sealed)
    requires Inv(w) && r in w.net
    ensures r in w.o.log && Taken(w.o.log, r.epoch, r.number)
  {
    hide Accounted, Entries, Genuine, ReceiverInv, LogInv;
    var i :| 0 <= i < |w.o.log| && w.o.log[i] == r;
  }

  // ---------------------------------------------------------------- one record arrives

  /** Every number in the window is below those of the records from `at` on. */
  ghost predicate Fresh(w: World, at: nat)
  {
    at <= |w.o.log| && forall n :: n in w.window ==> n < Count(w.o.log[..at], w.b.rEpoch)
  }

  /** Only the receiver's record layer and ring differ. */
  predicate SameButReceived(w: World, w': World)
  {
    && w' == w.(b := w'.b, window := w'.window, log := w'.log)
    && w'.b.readSeq == w.b.readSeq && w'.b.rEpoch == w.b.rEpoch
  }

  /** Record `at` of the sender's log can be received: it has the number it should have, is small
    * enough, and is on the network. */
  ghost predicate Receivable(w: World, at: nat)
  {
    && at < |w.o.log|
    && var r := w.o.log[at];
       r in w.net && |r.payload| <= MAX_PLAIN_LENGTH && r.number == Count(w.o.log[..at], r.epoch)
  }

  lemma ArriveOne(w: World, k: nat, off: nat, n: nat, at: nat, maxLen: nat)
    requires Inv(w) && Sound(w) && Receivable(w, at) && Fresh(w, at)
    requires k == w.b.readSeq && Expected(w.b, w.queued, k, maxLen)
    requires var r := w.o.log[at]; r.epoch == w.b.rEpoch && r.kind == RT_HANDSHAKE && PieceOf(w.queued, w.epochs, r, k, off, n)
    ensures var r := w.o.log[at];
            var w' := Do(w, Arrive(r), maxLen);
            && SameButReceived(w, w') && Inv(w') && Sound(w') && Fresh(w', at + 1)
            && Expected(w'.b, w'.queued, k, maxLen) && Begun(w'.b, k) && Grows(w.b, w'.b, k)
            && forall j :: off <= j < off + n ==> Has(w'.b, k, j)
  {
    var r := w.o.log[at];
    assert Accepts(w, r);
    assert Arrives(w, Arrive(r), k, off, n);
    ReceivedIs(w, r, maxLen);
    StepKeeps(w, Arrive(r), maxLen);
    StepSound(w, Arrive(r), maxLen);
    hide Inv, OutboxOk, OpenHandshake, Ring, Has, Count, Accepts, PieceOf, Expected, Receivable;
    StepGrows(w, Arrive(r), maxLen);
    ArrivedHas(w, Arrive(r), k, off, n, maxLen);
    hide Do, Grows, Begun;
    NextFresh(w, r, at, maxLen);
    StillExpected(w, Do(w, Arrive(r), maxLen), maxLen);
  }

  lemma NextFresh(w: World, r: Sealed, at: nat, maxLen: nat)
    requires Sound(w) && Receivable(w, at) && Fresh(w, at) && r == w.o.log[at] && r.epoch == w.b.rEpoch && Accepts(w, r)
    ensures Fresh(Do(w, Arrive(r), maxLen), at + 1)
  {
    ReceivedIs(w, r, maxLen);
    hide Do, Sound, Count;
    assert w.o.log[..at + 1] == w.o.log[..at] + [r];
    CountSnoc(w.o.log[..at], r, w.b.rEpoch);
  }

  // ---------------------------------------------------------------- one message arrives

  lemma CarriesIt(queued: seq<Msg>, epochs: seq<nat>, m: Message, k: nat, off: nat, r: Sealed)
    requires EntryOf(queued, epochs, m, k) && !m.isCcs && Carries(m, off, r)
    ensures r.kind == RT_HANDSHAKE && r.epoch == epochs[k] && PieceOf(queued, epochs, r, k, off, BodyLen(r))
    ensures Finishes(m, off, r) == (off + BodyLen(r) == |queued[k].body|)
  {
    hide Serialize, ParseFragment;
    var f := Whole(queued[k], k);
    FragmentRoundTrip(f, []);
    assert Serialize(f) + [] == Serialize(f);
    assert Content(m) == Some(f);
    var n := BodyLen(r);
    assert f.body[off..off + n] == queued[k].body[off..off + n];
  }

  /** The records from `at` up to `end` are the rest of the next message, from `off` on; before that
    * everything is there. */
  ghost predicate Underway(w: World, m: Message, k: nat, off: nat, at: nat, end: nat, maxLen: nat)
  {
    && Inv(w) && Sound(w) && Fresh(w, at) && at < end <= |w.o.log| && (forall i :: at <= i < end ==> Receivable(w, i))
    && k == w.b.readSeq && Expected(w.b, w.queued, k, maxLen) && EntryOf(w.queued, w.epochs, m, k) && !m.isCcs
    && w.epochs[k] == w.b.rEpoch && Tiles(m, off, w.o.log[at..end])
    && forall j: nat :: j < off ==> Has(w.b, k, j)
  }

  lemma UnderwayArrives(w: World, m: Message, k: nat, off: nat, at: nat, end: nat, maxLen: nat)
    requires Underway(w, m, k, off, at, end, maxLen)
    ensures at < end <= |w.o.log| && Sound(w) && k == w.b.readSeq < |w.queued|
    ensures var r := w.o.log[at];
            var w1 := Do(w, Arrive(r), maxLen);
            && Carries(m, off, r) && (Finishes(m, off, r) <==> off + BodyLen(r) == |w.queued[k].body|)
            && SameButReceived(w, w1) && Inv(w1) && Sound(w1) && Fresh(w1, at + 1)
            && Expected(w1.b, w1.queued, k, maxLen) && Begun(w1.b, k)
            && forall j: nat :: j < off + BodyLen(r) ==> Has(w1.b, k, j)
  {
    hide Inv, OutboxOk, Do, Has, Begun, Grows, EntryOf, Carries, PieceOf, Fresh, Finishes, Receivable, SameButReceived;
    var r := w.o.log[at];
    assert w.o.log[at..end][0] == r;
    TilesFirst(m, off, w.o.log[at..end]);
    CarriesIt(w.queued, w.epochs, m, k, off, r);
    ArriveOne(w, k, off, BodyLen(r), at, maxLen);
    hide Ring, BodyLen;
    SoFarHas(w, Do(w, Arrive(r), maxLen), k, off, BodyLen(r));
  }

  lemma TilesFirst(m: Message, off: nat, run: seq<Sealed>)
    requires Tiles(m, off, run)
    ensures run != [] && Carries(m, off, run[0])
  {
    hide Carries, Finishes;
  }

  lemma UnderwayOn(w: World, w1: World, m: Message, k: nat, off: nat, at: nat, end: nat, maxLen: nat)
    requires Underway(w, m, k, off, at, end, maxLen) && at + 1 < end && SameButReceived(w, w1)
    requires Inv(w1) && Sound(w1) && Fresh(w1, at + 1) && Expected(w1.b, w1.queued, k, maxLen)
    requires forall j: nat :: j < off + BodyLen(w.o.log[at]) ==> Has(w1.b, k, j)
    ensures Underway(w1, m, k, off + BodyLen(w.o.log[at]), at + 1, end, maxLen)
  {
    hide Inv, Sound, Has, Expected, EntryOf, Carries, Fresh, Finishes, BodyLen;
    var run := w.o.log[at..end];
    assert run[0] == w.o.log[at] && run[1..] == w.o.log[at + 1..end];
    TilesMore(m, off, run);
    forall i | at + 1 <= i < end ensures Receivable(w1, i) { assert Receivable(w, i); }
  }

  lemma UnderwayLast(w: World, m: Message, k: nat, off: nat, at: nat, end: nat, maxLen: nat)
    requires Underway(w, m, k, off, at, end, maxLen) && at + 1 == end
    ensures Carries(m, off, w.o.log[at]) && Finishes(m, off, w.o.log[at])
  {
    hide Inv, Sound, Has, Expected, EntryOf, Carries, Fresh, Finishes, Receivable;
    assert w.o.log[at..end] == [w.o.log[at]];
    TilesLast(m, off, w.o.log[at..end]);
  }

  lemma TilesLast(m: Message, off: nat, run: seq<Sealed>)
    requires Tiles(m, off, run) && |run| == 1
    ensures Carries(m, off, run[0]) && Finishes(m, off, run[0])
  {
    hide Carries, Finishes;
  }

  lemma TilesMore(m: Message, off: nat, run: seq<Sealed>)
    requires Tiles(m, off, run) && |run| > 1
    ensures Tiles(m, off + BodyLen(run[0]), run[1..])
  {
    hide Carries, Finishes;
  }

  /** The records that tile a message arrive one after another; then it is complete. */
  lemma {:induction false} ArriveAll(w: World, m: Message, k: nat, off: nat, at: nat, end: nat, maxLen: nat) returns (actions: seq<Action>)
    requires Underway(w, m, k, off, at, end, maxLen) && Sound(w)
    ensures var w' := Run(w, actions, maxLen);
            SameButReceived(w, w') && Inv(w') && Fresh(w', end) && GetMessage(w'.b) == Some(w.queued[k])
    ensures forall a :: a in actions ==> a.Arrive?
    decreases end - at
  {
    hide Underway, Inv, Sound, Do, Fresh, Has, Begun, Expected, Carries, Finishes;
    UnderwayArrives(w, m, k, off, at, end, maxLen);
    var r := w.o.log[at];
    var w1 := Do(w, Arrive(r), maxLen);
    var rest := [];
    if at + 1 == end {
      UnderwayLast(w, m, k, off, at, end, maxLen);
      NowOffered(w1, k);
      RunNone(w1, maxLen);
    } else {
      UnderwayOn(w, w1, m, k, off, at, end, maxLen);
      rest := ArriveAll(w1, m, k, off + BodyLen(r), at + 1, end, maxLen);
    }
    RunFirst(w, Arrive(r), rest, maxLen);
    actions := [Arrive(r)] + rest;
  }

  lemma SoFarHas(w: World, w1: World, k: nat, off: nat, n: nat)
    requires Ring(w.b) && Ring(w1.b) && Grows(w.b, w1.b, k)
    requires (forall j: nat :: j < off ==> Has(w.b, k, j)) && forall j :: off <= j < off + n ==> Has(w1.b, k, j)
    ensures forall j: nat :: j < off + n ==> Has(w1.b, k, j)
  {
    hide Has, Begun, Ring;
  }

  lemma NowOffered(w: World, k: nat)
    requires Inv(w) && Sound(w) && k == w.b.readSeq < |w.queued| && Begun(w.b, k)
    requires forall j: nat :: j < |w.queued[k].body| ==> Has(w.b, k, j)
    ensures GetMessage(w.b) == Some(w.queued[k])
  {
    AllThere(w.b, w.queued, k);
  }

  // ---------------------------------------------------------------- one message is delivered

  /** get_message and next_message hand over the message that is complete. */
  lemma Delivers(w: World, maxLen: nat)
    requires Inv(w) && Sound(w) && GetMessage(w.b).Some?
    ensures var w1 := Do(w, Get, maxLen);
            Sound(w1) && var w2 := Do(w1, Next, maxLen);
            && Sound(w2) && Inv(w2) && w2.o == w.o && w2.net == w.net && w2.queued == w.queued && w2.epochs == w.epochs
            && w2.window == w.window && w2.b.rEpoch == w.b.rEpoch && w2.b.readSeq == w.b.readSeq + 1
            && w2.delivered == w.delivered + [GetMessage(w.b).value]
  {
    var w1 := Do(w, Get, maxLen);
    StepKeeps(w, Get, maxLen);
    StepSound(w, Get, maxLen);
    StepKeeps(w1, Next, maxLen);
    StepSound(w1, Next, maxLen);
    hide Inv, Sound, Do;
    HandsOver(w, maxLen);
  }

  lemma HandsOver(w: World, maxLen: nat)
    requires Sound(w) && GetMessage(w.b).Some?
    ensures var w1 := Do(w, Get, maxLen);
            Sound(w1) && var w2 := Do(w1, Next, maxLen);
            && w2 == w.(b := w2.b, delivered := w.delivered + [GetMessage(w.b).value])
            && w2.b.rEpoch == w.b.rEpoch && w2.b.readSeq == w.b.readSeq + 1
  {
    hide OutboxOk;
  }

  /** Message k waits in entry i of the flight. */
  ghost predicate HeldAt(w: World, i: nat, k: nat)
  {
    i < |w.o.messages| && !w.o.messages[i].isCcs && EntryOf(w.queued, w.epochs, w.o.messages[i], k)
  }

  /** Message k is held, belongs to the receiver's epoch and is not too long for it. */
  ghost predicate Waits(w: World, k: nat, maxLen: nat)
  {
    && k < |w.queued| == |w.epochs| && w.epochs[k] == w.b.rEpoch && |w.queued[k].body| <= maxLen
    && exists i: nat :: HeldAt(w, i, k)
  }

  /** So does every message not yet read. */
  ghost predicate Held(w: World, maxLen: nat)
  {
    forall k: nat :: w.b.readSeq <= k < |w.queued| ==> Waits(w, k, maxLen)
  }

  /** The run of records that tiles one message is a stretch of what was sent. */
  lemma {:induction false} RunStretch(runs: seq<seq<Sealed>>, i: nat) returns (at: nat)
    requires i < |runs|
    ensures at + |runs[i]| <= |Flatten(runs)| && Flatten(runs)[at..at + |runs[i]|] == runs[i]
  {
    var rest := Flatten(runs[1..]);
    assert Flatten(runs) == runs[0] + rest;
    if i == 0 {
      return 0;
    }
    var a := RunStretch(runs[1..], i - 1);
    at := |runs[0]| + a;
    assert (runs[0] + rest)[at..at + |runs[i]|] == rest[a..a + |runs[i]|];
  }

  lemma {:induction false} TilesEpoch(m: Message, off: nat, run: seq<Sealed>, i: nat)
    requires Tiles(m, off, run) && i < |run|
    ensures run[i].epoch == m.epoch
    decreases i
  {
    hide Finishes;
    if i > 0 { TilesEpoch(m, off + BodyLen(run[0]), run[1..], i - 1); }
  }

  /** Without a wrap, record i has the number of records sealed before it in its epoch. */
  lemma NumberIs(o: Outbox, epoch: nat, i: nat)
    requires NumbersOk(o) && i < |o.log| && o.log[i].epoch == epoch && Count(o.log, epoch) < SEQ_LIMIT
    ensures o.log[i].number == Count(o.log[..i], epoch)
  {
    hide Count;
    CountMonotone(o.log, i, epoch);
    WrapBelow(Count(o.log[..i], epoch));
  }

  /** Everything in the window was sealed before record `at`. */
  lemma WindowFresh(w: World, log: seq<Sealed>, at: nat)
    requires NumbersOk(w.o) && log <= w.o.log && |log| <= at <= |w.o.log| && Count(w.o.log, w.b.rEpoch) < SEQ_LIMIT
    requires forall n :: n in w.window ==> Taken(log, w.b.rEpoch, n)
    ensures Fresh(w, at)
  {
    hide Count, NumbersOk;
    var e := w.b.rEpoch;
    forall n | n in w.window ensures n < Count(w.o.log[..at], e) {
      var j :| 0 <= j < |log| && log[j].epoch == e && log[j].number == n;
      assert w.o.log[j] == log[j];
      NumberIs(w.o, e, j);
      CountMonotone(w.o.log[..at], j, e);
      assert w.o.log[..at][..j] == w.o.log[..j] && w.o.log[..at][j] == log[j];
    }
  }

  /** The flight has been sent again since `log`; what tiles the next message can be received. */
  lemma RunReceivable(w: World, log: seq<Sealed>, mtu: nat, m: Message, at: nat, end: nat, i: nat)
    requires NumbersOk(w.o) && SentAll(w, log, mtu) && mtu <= RT_HEADER_LENGTH + MAX_PLAIN_LENGTH
    requires |log| <= at <= i < end <= |w.o.log| && Tiles(m, 0, w.o.log[at..end]) && Count(w.o.log, m.epoch) < SEQ_LIMIT
    ensures Receivable(w, i)
  {
    hide NumbersOk, Tiles, Count;
    var r := w.o.log[i];
    assert r == w.o.log[at..end][i - at];
    TilesEpoch(m, 0, w.o.log[at..end], i - at);
    NumberIs(w.o, m.epoch, i);
    assert r == w.o.sent[i - |log|];
  }

  /** n flights of b records. */
  function Rounds(n: nat, b: nat): nat
  {
    if n == 0 then 0 else b + Rounds(n - 1, b)
  }

  /** A state from which the flight, sent again at this MTU, brings everything not yet read. */
  ghost predicate Recoverable(w: World, mtu: nat, maxLen: nat)
  {
    && Ready(w.o, mtu) && Held(w, maxLen) && w.b.readSeq <= |w.queued|
    && Room(w.o, Rounds(|w.queued| - w.b.readSeq, Budget(w.o.messages, 0, 0)))
  }

  lemma HeldIndex(w: World, maxLen: nat) returns (i: nat)
    requires Held(w, maxLen) && w.b.readSeq < |w.queued|
    ensures var k := w.b.readSeq;
            && HeldAt(w, i, k) && k < |w.epochs| && w.epochs[k] == w.b.rEpoch
            && w.o.messages[i].epoch == w.b.rEpoch && Expected(w.b, w.queued, k, maxLen)
  {
    hide Serialize;
    var k := w.b.readSeq;
    assert Waits(w, k, maxLen);
    i :| HeldAt(w, i, k);
  }

  lemma StretchOf(o: Outbox, log: seq<Sealed>, i: nat) returns (at: nat, end: nat)
    requires Written(o.messages, o.sent) && o.log == log + o.sent && i < |o.messages|
    ensures |log| <= at < end <= |o.log| && Tiles(o.messages[i], 0, o.log[at..end])
  {
    hide Tiles, Path, Runs;
    var runs := Runs(o.messages, 0, 0, o.sent);
    assert Tiles(o.messages[0 + i], if i == 0 then 0 else 0, runs[i]);
    var a := RunStretch(runs, i);
    at, end := |log| + a, |log| + a + |runs[i]|;
    assert o.log[at..end] == o.sent[a..a + |runs[i]|] == runs[i];
    TilesFirst(o.messages[i], 0, runs[i]);
  }

  /** The flight has just been sent again: the records of the next message are a stretch of it. */
  lemma FindNext(w: World, log: seq<Sealed>, mtu: nat, maxLen: nat) returns (m: Message, at: nat, end: nat)
    requires Inv(w) && Sound(w) && SentAll(w, log, mtu) && Ready(w.o, mtu) && Held(w, maxLen) && Room(w.o, 0)
    requires w.b.readSeq < |w.queued| && Written(w.o.messages, w.o.sent)
    requires forall n :: n in w.window ==> Taken(log, w.b.rEpoch, n)
    ensures Underway(w, m, w.b.readSeq, 0, at, end, maxLen)
  {
    hide Inv, Sound, Held, Written, Tiles, EntryOf, Taken, Count, Expected, Receivable, Fresh, NumbersOk;
    var i := HeldIndex(w, maxLen);
    m := w.o.messages[i];
    assert LiveIn(w.o, m);
    at, end := StretchOf(w.o, log, i);
    InvNumbers(w);
    forall j | at <= j < end ensures Receivable(w, j) {
      RunReceivable(w, log, mtu, m, at, end, j);
    }
    WindowFresh(w, log, at);
  }

  lemma InvNumbers(w: World)
    requires Inv(w)
    ensures NumbersOk(w.o)
  {
    InvEntries(w);
  }

  /** The flight is sent again, and the next message arrives and is handed over. */
  lemma Round(w: World, mtu: nat, maxLen: nat) returns (actions: seq<Action>)
    requires Inv(w) && Sound(w) && WindowSealed(w) && Recoverable(w, mtu, maxLen) && w.b.readSeq < |w.queued|
    ensures var w' := Run(w, actions, maxLen);
            && Inv(w') && WindowSealed(w') && Recoverable(w', mtu, maxLen)
            && w'.queued == w.queued && w'.b.readSeq == w.b.readSeq + 1
    ensures forall a :: a in actions ==> a.Rewind? || a.Send? || a.Arrive? || a.Get? || a.Next?
  {
    hide Inv, Sound, Do, WindowSealed, Recoverable, Room, Ready, Budget, SentAll, Held, Written, Underway, Fresh, GetMessage, Taken;
    var w0 := Do(w, Rewind, maxLen);
    Rewinds(w, mtu, maxLen);
    var sends := SendRest(w0, w.o.log, mtu, maxLen);
    var w1 := Run(w0, sends, maxLen);
    RunKeeps(w0, sends, maxLen);
    Resent(w, w0, w1, mtu, maxLen);
    var m, at, end := FindNext(w1, w.o.log, mtu, maxLen);
    var arrives := ArriveAll(w1, m, w.b.readSeq, 0, at, end, maxLen);
    var w2 := Run(w1, arrives, maxLen);
    Delivers(w2, maxLen);
    var w3 := Do(Do(w2, Get, maxLen), Next, maxLen);
    RunFirst(w2, Get, [Next], maxLen);
    RunFirst(Do(w2, Get, maxLen), Next, [], maxLen);
    RunNone(w3, maxLen);
    assert [Get] + [Next] == [Get, Next] && [Next] + [] == [Next];
    RunCat(w1, arrives, [Get, Next], maxLen);
    RunCat(w0, sends, arrives + [Get, Next], maxLen);
    actions := [Rewind] + (sends + (arrives + [Get, Next]));
    RunFirst(w, Rewind, sends + (arrives + [Get, Next]), maxLen);
    RunWindow(w, actions, maxLen);
    SentLog(w1, w.o.log, mtu);
    StillRecoverable(w, w3, w1.o.sent, mtu, maxLen);
  }

  lemma Rewinds(w: World, mtu: nat, maxLen: nat)
    requires Inv(w) && Sound(w) && Recoverable(w, mtu, maxLen) && w.b.readSeq < |w.queued|
    ensures var w0 := Do(w, Rewind, maxLen);
            && Inv(w0) && Sound(w0) && SentAll(w0, w.o.log, mtu) && Ready(w0.o, mtu)
            && w0 == w.(o := w0.o) && w0.o == Rewound(w.o) && w0.o.written == w0.o.offset == 0
            && Room(w0.o, Budget(w0.o.messages, 0, 0))
  {
    hide Inv, Budget, Count, Held, Ready, Room, Sound, Do, SentAll;
    StepKeeps(w, Rewind, maxLen);
    StepSound(w, Rewind, maxLen);
    RewindIs(w, mtu, maxLen);
    ReadyRewound(w.o, mtu);
    var b := Budget(w.o.messages, 0, 0);
    assert w.o.log == Rewound(w.o).log + [];
    RoomLeft(w.o, Rewound(w.o), [], Rounds(|w.queued| - w.b.readSeq, b), b);
  }

  lemma RewindIs(w: World, mtu: nat, maxLen: nat)
    requires Sound(w)
    ensures Do(w, Rewind, maxLen) == w.(o := Rewound(w.o))
    ensures SentAll(w.(o := Rewound(w.o)), w.o.log, mtu)
  {
    hide OutboxOk, Ring;
    assert w.o.log + [] == w.o.log;
  }

  lemma ReadyRewound(o: Outbox, mtu: nat)
    requires Ready(o, mtu)
    ensures Ready(Rewound(o), mtu)
  {
    forall i | 0 <= i < |o.messages| ensures LiveIn(Rewound(o), o.messages[i]) { assert LiveIn(o, o.messages[i]); }
  }

  /** What sending has left as it was. */
  lemma Resent(w: World, w0: World, w1: World, mtu: nat, maxLen: nat)
    requires WindowSealed(w) && Recoverable(w, mtu, maxLen)
    requires w0 == w.(o := Rewound(w.o)) && SameButSent(w0, w1)
    ensures Ready(w1.o, mtu) && Held(w1, maxLen) && w1.b == w.b && w1.queued == w.queued && w1.o.messages == w.o.messages
    ensures forall n :: n in w1.window ==> Taken(w.o.log, w1.b.rEpoch, n)
  {
    hide Room, Taken, Budget, EntryOf;
    ReadyRewound(w.o, mtu);
    SameReady(w0, w1, mtu);
    StillHeld(w, w1, maxLen);
  }

  lemma StillHeld(w: World, w': World, maxLen: nat)
    requires Held(w, maxLen) && w'.queued == w.queued && w'.epochs == w.epochs && w'.o.messages == w.o.messages
    requires w'.b.rEpoch == w.b.rEpoch && w'.b.readSeq >= w.b.readSeq
    ensures Held(w', maxLen)
  {
    hide EntryOf;
    forall k: nat | w'.b.readSeq <= k < |w'.queued| ensures Waits(w', k, maxLen) {
      assert Waits(w, k, maxLen);
      var i: nat :| HeldAt(w, i, k);
      assert HeldAt(w', i, k);
    }
  }

  lemma SentLog(w: World, log: seq<Sealed>, mtu: nat)
    requires SentAll(w, log, mtu) && Written(w.o.messages, w.o.sent)
    ensures w.o.log == log + w.o.sent && Path(w.o.messages, 0, 0, w.o.sent, |w.o.messages|, 0)
  {
    hide Path, Runs, TilesAll;
  }

  /** A flight sent once more leaves numbers for the rounds that remain. */
  lemma StillRecoverable(w: World, w': World, sent: seq<Sealed>, mtu: nat, maxLen: nat)
    requires Recoverable(w, mtu, maxLen) && w.b.readSeq < |w.queued|
    requires w'.queued == w.queued && w'.epochs == w.epochs && w'.b.rEpoch == w.b.rEpoch && w'.b.readSeq == w.b.readSeq + 1
    requires w'.o.messages == w.o.messages && w'.o.wEpoch == w.o.wEpoch && w'.o.aead == w.o.aead && w'.o.lastAead == w.o.lastAead
    requires w'.o.log == w.o.log + sent && Path(w.o.messages, 0, 0, sent, |w.o.messages|, 0)
    ensures Recoverable(w', mtu, maxLen)
  {
    hide Path, Budget, Count, Held, Room;
    StillHeld(w, w', maxLen);
    forall i | 0 <= i < |w'.o.messages| ensures LiveIn(w'.o, w'.o.messages[i]) { assert LiveIn(w.o, w.o.messages[i]); }
    PathBudget(w.o.messages, 0, 0, sent, |w.o.messages|, 0);
    var b, n := Budget(w.o.messages, 0, 0), |w.queued| - w.b.readSeq;
    RoomLeft(w.o, w'.o, sent, Rounds(n, b), Rounds(n - 1, b));
  }

  /** In every run: as long as every message not yet read is held by the sender and belongs to the
    * receiver's epoch, a continuation that only sends the flight again and lets records arrive
    * delivers every queued message, at any MTU at which no guard of the seals fails and no record is
    * too long for the receiver. */
  lemma {:induction false} FlightRecovers(actions: seq<Action>, mtu: nat, maxLen: nat) returns (more: seq<Action>)
    requires Recoverable(Run(Start(), actions, maxLen), mtu, maxLen)
    ensures var w := Run(Start(), actions, maxLen);
            var w' := Run(w, more, maxLen);
            w'.queued == w.queued == w'.delivered
    ensures forall a :: a in more ==> a.Rewind? || a.Send? || a.Arrive? || a.Get? || a.Next?
  {
    StartInv();
    assert WindowSealed(Start());
    hide Run, Inv, WindowSealed, Recoverable;
    RunKeeps(Start(), actions, maxLen);
    RunWindow(Start(), actions, maxLen);
    more := AllRounds(Run(Start(), actions, maxLen), mtu, maxLen);
  }

  lemma {:induction false} AllRounds(w: World, mtu: nat, maxLen: nat) returns (more: seq<Action>)
    requires Inv(w) && Sound(w) && WindowSealed(w) && Recoverable(w, mtu, maxLen)
    ensures var w' := Run(w, more, maxLen); w'.queued == w.queued == w'.delivered
    ensures forall a :: a in more ==> a.Rewind? || a.Send? || a.Arrive? || a.Get? || a.Next?
    decreases |w.queued| - w.b.readSeq
  {
    hide Inv, Sound, WindowSealed, Do, Ready, Room, Held;
    InvDelivered(w);
    if w.b.readSeq == |w.queued| {
      RunNone(w, maxLen);
      more := [];
    } else {
      var round := Round(w, mtu, maxLen);
      var rest := AllRounds(Run(w, round, maxLen), mtu, maxLen);
      RunCat(w, round, rest, maxLen);
      more := round + rest;
    }
  }

  lemma InvDelivered(w: World)
    requires Inv(w)
    ensures w.b.readSeq <= |w.queued| && w.delivered == w.queued[..w.b.readSeq]
  {
  }

  // ---------------------------------------------------------------- where it does not

  /** One unencrypted message, in one record too long for a receiver, and a receiver that has nothing. */
  ghost predicate Stalled(w: World, body: seq<byte>)
  {
    && w.o.messages == [Message(Serialize(Whole(Msg(11, body), 0)), 0, false)] && w.o.written <= 1 && w.o.offset == 0
    && w.o.wEpoch == 0 && w.o.aead == Aead(0, 0, 0) && w.b == Empty() && w.delivered == []
    && forall r :: r in w.net ==> |r.payload| > MAX_PLAIN_LENGTH
  }

  /** The only record the message is sealed into. */
  lemma OneRecord(o: Outbox, body: seq<byte>, mtu: nat)
    requires o.messages == [Message(Serialize(Whole(Msg(11, body), 0)), 0, false)] && o.written == 0 && o.offset == 0
    requires o.wEpoch == 0 && o.aead == Aead(0, 0, 0)
    requires MAX_PLAIN_LENGTH - HM_HEADER_LENGTH < |body| < 0x100_0000
    requires |body| + HM_HEADER_LENGTH + RT_HEADER_LENGTH <= mtu
    ensures var p := SealNextPacket(o, mtu);
            && p.o == o.(number := p.o.number, written := p.o.written, log := p.o.log) && p.o.written <= 1
            && forall r :: r in p.records ==> |r.payload| > MAX_PLAIN_LENGTH
  {
    hide Serialize, Content;
    WholeContent(Msg(11, body), 0);
    PlainGrowth(|body| + HM_HEADER_LENGTH);
    var f := Whole(Msg(11, body), 0);
    var piece := f.(off := 0, body := f.body[0..0 + |body|]);
    var s := SealNextMessage(o, mtu);
    assert s == MoveOn(SealRecord(o, RT_HANDSHAKE, Serialize(piece), false, mtu), |body|, |body|);
    if s.ret.Progress? {
      var next := s.o.(written := 1);
      assert SealLoop(next, mtu - s.ret.record.size, [] + [s.ret.record]) == Packet(true, next, [] + [s.ret.record]);
    }
  }

  lemma StalledStep(w: World, body: seq<byte>, mtu: nat, a: Action, maxLen: nat)
    requires Sound(w) && Stalled(w, body)
    requires MAX_PLAIN_LENGTH - HM_HEADER_LENGTH < |body| < 0x100_0000
    requires |body| + HM_HEADER_LENGTH + RT_HEADER_LENGTH <= mtu
    requires a.Rewind? || (a.Send? && a.mtu == mtu) || a.Arrive? || a.Get? || a.Next?
    ensures Stalled(Do(w, a, maxLen), body)
  {
    hide Serialize, OpenHandshake, SealNextPacket, Skips, OutboxOk;
    if a.Send? && w.o.written == 0 { OneRecord(w.o, body, mtu); }
  }

  /** A message that is sealed into one record of more than 2^14 bytes, which takes an MTU above
    * 16397, is never delivered: no receiver opens the record, however often it is sent. */
  lemma {:induction false} OversizedNeverArrives(body: seq<byte>, mtu: nat, actions: seq<Action>, maxLen: nat)
    requires MAX_PLAIN_LENGTH - HM_HEADER_LENGTH < |body| < 0x100_0000
    requires |body| + HM_HEADER_LENGTH + RT_HEADER_LENGTH <= mtu
    requires forall a :: a in actions ==> a.Rewind? || (a.Send? && a.mtu == mtu) || a.Arrive? || a.Get? || a.Next?
    ensures Run(Start(), [Queue(11, body), Flush] + actions, maxLen).delivered == []
  {
    var w1 := Do(Start(), Queue(11, body), maxLen);
    StepSound(Start(), Queue(11, body), maxLen);
    StepSound(w1, Flush, maxLen);
    assert Stalled(Do(w1, Flush, maxLen), body) by { hide Serialize; }
    hide Run, Do, Start, Sound;
    RunFirst(Start(), Queue(11, body), [Flush] + actions, maxLen);
    RunFirst(w1, Flush, actions, maxLen);
    assert [Queue(11, body)] + ([Flush] + actions) == [Queue(11, body), Flush] + actions;
    StalledRun(Do(w1, Flush, maxLen), body, mtu, actions, maxLen);
  }

  lemma {:induction false} StalledRun(w: World, body: seq<byte>, mtu: nat, actions: seq<Action>, maxLen: nat)
    requires Sound(w) && Stalled(w, body)
    requires MAX_PLAIN_LENGTH - HM_HEADER_LENGTH < |body| < 0x100_0000
    requires |body| + HM_HEADER_LENGTH + RT_HEADER_LENGTH <= mtu
    requires forall a :: a in actions ==> a.Rewind? || (a.Send? && a.mtu == mtu) || a.Arrive? || a.Get? || a.Next?
    ensures Run(w, actions, maxLen).delivered == []
    decreases |actions|
  {
    hide Do, Sound, Serialize, SealNextPacket;
    if actions != [] {
      assert actions[0] in actions && forall a :: a in actions[1..] ==> a in actions;
      StalledStep(w, body, mtu, actions[0], maxLen);
      RunFirst(w, actions[0], actions[1..], maxLen);
      assert [actions[0]] + actions[1..] == actions;
      StalledRun(Do(w, actions[0], maxLen), body, mtu, actions[1..], maxLen);
    }
  }

  /** At a smaller MTU the same message gets through. */
  lemma OneMessageRecovers(body: seq<byte>, mtu: nat, maxLen: nat) returns (more: seq<Action>)
    requires |body| < 0x100_0000 && |body| <= maxLen
    requires RT_HEADER_LENGTH + HM_HEADER_LENGTH + 1 <= mtu <= RT_HEADER_LENGTH + MAX_PLAIN_LENGTH
    ensures Run(Run(Start(), [Queue(11, body), Flush], maxLen), more, maxLen).delivered == [Msg(11, body)]
  {
    hide Run, Do, Start, Sound, Recoverable;
    OneQueued(body, mtu, maxLen);
    var w1 := Do(Start(), Queue(11, body), maxLen);
    RunFirst(Start(), Queue(11, body), [Flush], maxLen);
    RunFirst(w1, Flush, [], maxLen);
    RunNone(Do(w1, Flush, maxLen), maxLen);
    assert [Queue(11, body)] + [Flush] == [Queue(11, body), Flush] && [Flush] + [] == [Flush];
    more := FlightRecovers([Queue(11, body), Flush], mtu, maxLen);
  }

  lemma OneQueued(body: seq<byte>, mtu: nat, maxLen: nat)
    requires |body| < 0x100_0000 && |body| <= maxLen
    requires RT_HEADER_LENGTH + HM_HEADER_LENGTH + 1 <= mtu <= RT_HEADER_LENGTH + MAX_PLAIN_LENGTH
    ensures var w1 := Do(Start(), Queue(11, body), maxLen);
            Sound(w1) && var w := Do(w1, Flush, maxLen);
            Sound(w) && Recoverable(w, mtu, maxLen) && w.queued == [Msg(11, body)]
  {
    hide Serialize, Content, Budget, Rounds;
    StepSound(Start(), Queue(11, body), maxLen);
    var w1 := Do(Start(), Queue(11, body), maxLen);
    StepSound(w1, Flush, maxLen);
    var w := Do(w1, Flush, maxLen);
    WholeContent(Msg(11, body), 0);
    assert HeldAt(w, 0, 0) && Waits(w, 0, maxLen);
    assert LiveIn(w.o, w.o.messages[0]);
    assert Count(w.o.log, 0) == 0;
    OneBudget(w.o.messages);
  }

  lemma OneBudget(ms: seq<Message>)
    requires |ms| == 1 && (!ms[0].isCcs ==> Content(ms[0]).Some? && |Content(ms[0]).value.body| < 0x100_0000)
    ensures Rounds(1, Budget(ms, 0, 0)) <= 0x100_0000
  {
    hide Content;
    assert Budget(ms, 1, 0) == 0;
    assert Rounds(0, Budget(ms, 0, 0)) == 0;
  }
}
