/**
 * The DTLS handshake transport end to end: a sender, a network that loses, repeats and reorders
 * records at will, and a receiver, for every run of queueing, sealing, retransmission, arrival,
 * delivery and epoch changes (d1_both.cc, dtls_record.cc, dtls_method.cc).
 */
module Delivery {
  import opened Bytes
  import opened Fragments
  import opened Reassembly
  import opened Incoming
  import opened Outgoing
  import Flights
  import opened Account
  import opened DtlsRecord
  import ReplayWindow

  /** Both ends and the network. `net` is every record ever sealed; `window` and `log` are the
    * records that passed the receiver's record layer, in this epoch and in all; `queued`, with the
    * epochs they were queued in, and `delivered` are the handshake messages so far. */
  datatype World = World(
    o: Outbox, net: set<Sealed>, b: Inbox, window: set<nat>, log: seq<(nat, nat)>,
    queued: seq<Msg>, epochs: seq<nat>, delivered: seq<Msg>)

  datatype Action =
    | Queue(kind: nat, body: seq<byte>)       // init_message, finish_message, add_message
    | QueueCcs                                // add_change_cipher_spec
    | Flush                                   // flush_flight, before it sends
    | Send(mtu: nat, written: bool)           // one packet of send_flight and the transport's answer
    | Rewind                                  // retransmit_outgoing_messages, before it sends
    | ChangeWriteState(aead: Aead)
    | Reply                                   // next_message at the sender: the peer has answered
    | Finish                                  // on_handshake_complete at the sender
    | Arrive(r: Sealed)                       // open_record and open_handshake
    | Get                                     // get_message
    | Next                                    // next_message
    | TakeCcs                                 // open_change_cipher_spec
    | ChangeReadState

  /** What the code's own assertions rely on. */
  predicate Sound(w: World)
  {
    OutboxOk(w.o) && Ring(w.b)
  }

  function Start(): (w: World)
    ensures Sound(w)
  {
    World(Outbox([], 0, 0, false, false, 0, 0, 0, 0, Aead(0, 0, 0), Aead(0, 0, 0), [], [], false), {}, Empty(), {}, [], [], [], [])
  }

  /** A message the header fields can describe. */
  predicate Sendable(m: Msg, seq_: nat)
  {
    m.kind < 0x100 && |m.body| < 0x100_0000 && seq_ < 0x1_0000
  }

  function AsSet(rs: seq<Sealed>): set<Sealed>
  {
    set r | r in rs
  }

  function SendPacket(w: World, mtu: nat, written: bool): World
    requires w.o.written <= |w.o.messages|
  {
    if w.o.written == |w.o.messages| then w
    else
      var p := SealNextPacket(w.o, mtu);
      w.(o := Flights.SendPacket(w.o, mtu, written), net := if p.ok then w.net + AsSet(p.records) else w.net)
  }

  /** The record layer lets through a record of the current epoch that is no replay. With ideal
    * encryption what it yields is the payload of the record that was sealed. */
  ghost predicate Accepts(w: World, r: Sealed)
  {
    r in w.net && r.epoch == w.b.rEpoch && !ReplayWindow.Replayed(w.window, r.number) && |r.payload| <= MAX_PLAIN_LENGTH
  }

  ghost function ReceiveRecord(w: World, r: Sealed, maxLen: nat): World
    requires Ring(w.b)
  {
    if !Accepts(w, r) then w
    else
      w.(b := OpenHandshake(w.b, r.kind, r.payload, w.b.rEpoch == 0, maxLen).b,
         window := w.window + {r.number}, log := w.log + [(r.epoch, r.number)])
  }

  ghost function Do(w: World, a: Action, maxLen: nat): World
    requires Sound(w)
  {
    match a
    case Queue(kind, body) =>
      var m := Msg(kind, body);
      if !Sendable(m, w.o.writeSeq) then w
      else
        (match AddOutgoing(w.o, false, Serialize(Whole(m, w.o.writeSeq)))
         case None => w
         case Some(o) => w.(o := o, queued := w.queued + [m], epochs := w.epochs + [w.o.wEpoch]))
    case QueueCcs =>
      (match AddOutgoing(w.o, true, [])
       case None => w
       case Some(o) => w.(o := o))
    case Flush => w.(o := w.o.(complete := true))
    case Send(mtu, written) => SendPacket(w, mtu, written)
    case Rewind => w.(o := Flights.Rewound(w.o))
    case ChangeWriteState(aead) => w.(o := SetWriteState(w.o, aead))
    case Reply => w.(o := if w.o.complete then w.o.(hasReply := true) else w.o)
    case Finish => w.(o := if w.o.hasReply then Clear(w.o) else w.o)
    case Arrive(r) => ReceiveRecord(w, r, maxLen)
    case Get => w.(b := w.b.(hasMessage := w.b.hasMessage || CurrentComplete(w.b)))
    case Next =>
      if !w.b.hasMessage then w
      else w.(b := NextMessage(w.b), delivered := w.delivered + [GetMessage(w.b).value])
    case TakeCcs => w.(b := w.b.(hasCcs := false))
    case ChangeReadState =>
      (match SetReadState(w.b)
       case None => w
       case Some(b) => w.(b := b, window := {}))
  }

  // ---------------------------------------------------------------- what every reachable state keeps

  /** The record is a piece of queued message k, sealed under the epoch k was queued in. */
  ghost predicate PieceOf(queued: seq<Msg>, epochs: seq<nat>, r: Sealed, k: nat, off: nat, n: nat)
  {
    && k < |queued| == |epochs| && off + n <= |queued[k].body| && Sendable(queued[k], k)
    && r.payload == Serialize(Cut(queued[k], k, off, n)) && r.epoch == epochs[k]
  }

  ghost predicate Genuine(queued: seq<Msg>, epochs: seq<nat>, r: Sealed)
  {
    if r.kind == RT_HANDSHAKE then exists k: nat, off: nat, n: nat :: PieceOf(queued, epochs, r, k, off, n)
    else r.kind == RT_CHANGE_CIPHER_SPEC && r.payload == [MT_CCS]
  }

  /** The queue entry is message k as it was queued. */
  ghost predicate EntryOf(queued: seq<Msg>, epochs: seq<nat>, m: Message, k: nat)
  {
    k < |queued| == |epochs| && Sendable(queued[k], k) && m.data == Serialize(Whole(queued[k], k)) && m.epoch == epochs[k]
  }

  ghost predicate Entries(queued: seq<Msg>, epochs: seq<nat>, ms: seq<Message>)
  {
    forall m :: m in ms && !m.isCcs ==> exists k: nat :: EntryOf(queued, epochs, m, k)
  }

  /** The received bytes of a partial message are those of the message queued under its number. */
  predicate Agrees(queued: seq<Msg>, p: Partial)
  {
    && p.seq_ < |queued|
    && p.kind == queued[p.seq_].kind
    && |p.have| == |p.body| == |queued[p.seq_].body|
    && forall j :: 0 <= j < |p.have| && p.have[j] ==> p.body[j] == queued[p.seq_].body[j]
  }

  predicate RingAgrees(queued: seq<Msg>, b: Inbox)
    requires Ring(b)
  {
    forall i :: 0 <= i < FLIGHT && b.ring[i].Some? ==> Agrees(queued, b.ring[i].value)
  }

  ghost predicate SenderInv(w: World)
  {
    && Accounted(w.o)
    && w.o.writeSeq == |w.queued| == |w.epochs|
    && Entries(w.queued, w.epochs, w.o.messages)
    && forall r :: r in w.net ==> Genuine(w.queued, w.epochs, r) && r in w.o.log
  }

  ghost predicate ReceiverInv(w: World)
  {
    && Ring(w.b) && Pure(w.b) && RingAgrees(w.queued, w.b)
    && w.b.readSeq <= |w.queued| && w.delivered == w.queued[..w.b.readSeq]
  }

  ghost predicate Inv(w: World)
  {
    SenderInv(w) && ReceiverInv(w) && LogInv(w)
  }

  // ---------------------------------------------------------------- sending keeps it

  lemma StillGenuine(w: World, m: Msg, e: nat)
    requires SenderInv(w)
    ensures forall r :: r in w.net ==> Genuine(w.queued + [m], w.epochs + [e], r)
    ensures Entries(w.queued + [m], w.epochs + [e], w.o.messages)
  {
    hide Serialize, Content;
    forall r | r in w.net ensures Genuine(w.queued + [m], w.epochs + [e], r) {
      if r.kind == RT_HANDSHAKE {
        var k: nat, off: nat, n: nat :| PieceOf(w.queued, w.epochs, r, k, off, n);
        assert PieceOf(w.queued + [m], w.epochs + [e], r, k, off, n);
      }
    }
    forall x | x in w.o.messages && !x.isCcs ensures exists k: nat :: EntryOf(w.queued + [m], w.epochs + [e], x, k) {
      var k: nat :| EntryOf(w.queued, w.epochs, x, k);
      assert EntryOf(w.queued + [m], w.epochs + [e], x, k);
    }
  }

  lemma CarriesPiece(queued: seq<Msg>, epochs: seq<nat>, m: Message, off: nat, r: Sealed)
    requires Carries(m, off, r) && (!m.isCcs ==> exists k: nat :: EntryOf(queued, epochs, m, k))
    ensures Genuine(queued, epochs, r)
  {
    hide Serialize, ParseFragment;
    if !m.isCcs {
      var k: nat :| EntryOf(queued, epochs, m, k);
      var f := Whole(queued[k], k);
      FragmentRoundTrip(f, []);
      assert Serialize(f) + [] == Serialize(f);
      assert Content(m) == Some(f);
      var n := BodyLen(r);
      assert f.body[off..off + n] == queued[k].body[off..off + n];
      assert PieceOf(queued, epochs, r, k, off, n);
    }
  }

  lemma {:induction false} PathGenuine(queued: seq<Msg>, epochs: seq<nat>, ms: seq<Message>, w: nat, off: nat, rs: seq<Sealed>, w': nat, off': nat)
    requires Path(ms, w, off, rs, w', off') && Entries(queued, epochs, ms)
    ensures forall r :: r in rs ==> Genuine(queued, epochs, r)
    decreases |rs|
  {
    hide Carries, Finishes, Genuine, EntryOf;
    if rs != [] {
      assert ms[w] in ms;
      CarriesPiece(queued, epochs, ms[w], off, rs[0]);
      if Finishes(ms[w], off, rs[0]) {
        PathGenuine(queued, epochs, ms, w + 1, 0, rs[1..], w', off');
      } else {
        PathGenuine(queued, epochs, ms, w, off + BodyLen(rs[0]), rs[1..], w', off');
      }
      assert rs == [rs[0]] + rs[1..];
    }
  }

  // ---------------------------------------------------------------- receiving keeps it

  /** A genuine fragment brings a slot closer to the message with its number. */
  lemma InsertAgrees(b: Inbox, queued: seq<Msg>, k: nat, off: nat, n: nat, maxLen: nat)
    requires Ring(b) && RingAgrees(queued, b) && k < |queued| && off + n <= |queued[k].body|
    ensures var b' := Insert(b, Cut(queued[k], k, off, n), maxLen).b; Ring(b') && RingAgrees(queued, b')
  {
    hide Complete;
    var f := Cut(queued[k], k, off, n);
    InsertKeepsRing(b, f, maxLen);
    if b.readSeq <= k < b.readSeq + FLIGHT {
      var i := k % FLIGHT;
      var p := if b.ring[i].Some? then b.ring[i].value else NewPartial(f, b.rEpoch);
      assert Agrees(queued, p);
      FillAgrees(queued, p, off, n, b.rEpoch);
    }
  }

  lemma FillAgrees(queued: seq<Msg>, p: Partial, off: nat, n: nat, epoch: nat)
    requires Agrees(queued, p) && off + n <= |p.body|
    ensures Agrees(queued, Fill(p, off, queued[p.seq_].body[off..off + n], epoch))
  {
    var q := Fill(p, off, queued[p.seq_].body[off..off + n], epoch);
    forall j | 0 <= j < |q.have| && q.have[j] ensures q.body[j] == queued[p.seq_].body[j] {
    }
  }

  lemma ReceiveAgrees(b: Inbox, queued: seq<Msg>, epochs: seq<nat>, r: Sealed, maxLen: nat)
    requires Ring(b) && RingAgrees(queued, b) && Genuine(queued, epochs, r)
    ensures RingAgrees(queued, OpenHandshake(b, r.kind, r.payload, b.rEpoch == 0, maxLen).b)
  {
    hide Serialize, ParseFragment, Insert, Complete, Agrees;
    if r.kind == RT_HANDSHAKE {
      var k: nat, off: nat, n: nat :| PieceOf(queued, epochs, r, k, off, n);
      var f := Cut(queued[k], k, off, n);
      FragmentRoundTrip(f, []);
      assert Serialize(f) + [] == Serialize(f);
      InsertAgrees(b, queued, k, off, n, maxLen);
      OneFragment(b, r.payload, f, maxLen);
    }
  }

  /** A record that holds one fragment. */
  lemma OneFragment(b: Inbox, s: seq<byte>, f: Fragment, maxLen: nat)
    requires Ring(b) && ParseFragment(s) == Got(f, [])
    ensures InsertAll(b, s, maxLen).b == Insert(b, f, maxLen).b
  {
    hide ParseFragment, Insert;
    InsertKeepsRing(b, f, maxLen);
    if Insert(b, f, maxLen).Stored? {
      assert InsertAll(Insert(b, f, maxLen).b, [], maxLen).b == Insert(b, f, maxLen).b;
    }
  }

  /** What get_message hands over is the next message of the sender, byte for byte. */
  lemma CompleteIsQueued(b: Inbox, queued: seq<Msg>)
    requires Ring(b) && RingAgrees(queued, b) && GetMessage(b).Some?
    ensures b.readSeq < |queued| && GetMessage(b).value == queued[b.readSeq]
  {
    var p := b.ring[Current(b)].value;
    SameSlot(b.readSeq, b.readSeq, p.seq_);
    assert Agrees(queued, p);
    assert p.body == queued[b.readSeq].body;
  }

  // ---------------------------------------------------------------- genuine fragments arrive

  /** A genuine fragment is refused exactly when its message is too long for this end, when it is
    * not the one message of the encrypted epoch, or when it is FLIGHT messages ahead; it never
    * disagrees with what is buffered. */
  lemma GenuineRefused(b: Inbox, queued: seq<Msg>, k: nat, off: nat, n: nat, maxLen: nat)
    requires Ring(b) && RingAgrees(queued, b) && k < |queued| && off + n <= |queued[k].body|
    ensures Insert(b, Cut(queued[k], k, off, n), maxLen).Rejected? <==>
            |queued[k].body| > maxLen || (b.rEpoch == 1 && k != b.readSeq) || k == b.readSeq + FLIGHT
  {
    hide Complete;
    if b.readSeq <= k < b.readSeq + FLIGHT && b.ring[k % FLIGHT].Some? {
      SameSlot(b.readSeq, k, b.ring[k % FLIGHT].value.seq_);
      assert Agrees(queued, b.ring[k % FLIGHT].value);
    }
  }

  /** Byte j of message k has arrived. */
  predicate Has(b: Inbox, k: nat, j: nat)
    requires Ring(b)
  {
    var p := b.ring[k % FLIGHT];
    p.Some? && p.value.seq_ == k && j < |p.value.have| && p.value.have[j]
  }

  /** Message k is among the next FLIGHT and this end takes it. */
  predicate Expected(b: Inbox, queued: seq<Msg>, k: nat, maxLen: nat)
  {
    && b.readSeq <= k < b.readSeq + FLIGHT && k < |queued| && |queued[k].body| <= maxLen
    && (b.rEpoch == 1 ==> k == b.readSeq)
  }

  lemma InsertHas(b: Inbox, queued: seq<Msg>, k: nat, off: nat, n: nat, maxLen: nat)
    requires Ring(b) && RingAgrees(queued, b) && Expected(b, queued, k, maxLen) && off + n <= |queued[k].body|
    ensures var b' := Insert(b, Cut(queued[k], k, off, n), maxLen).b;
            && Ring(b') && RingAgrees(queued, b') && Expected(b', queued, k, maxLen)
            && b'.ring[k % FLIGHT].Some? && b'.ring[k % FLIGHT].value.seq_ == k
            && forall j :: 0 <= j < |queued[k].body| && (Has(b, k, j) || off <= j < off + n) ==> Has(b', k, j)
  {
    var f := Cut(queued[k], k, off, n);
    InsertAgrees(b, queued, k, off, n, maxLen);
    if b.ring[k % FLIGHT].Some? {
      SameSlot(b.readSeq, k, b.ring[k % FLIGHT].value.seq_);
      assert Agrees(queued, b.ring[k % FLIGHT].value);
    }
  }

  // ---------------------------------------------------------------- the replay log

  predicate NoRepeats<T(==)>(s: seq<T>)
  {
    forall i, j :: 0 <= i < j < |s| ==> s[i] != s[j]
  }

  /** Nothing from a later epoch has passed, and the window knows what passed in this one. */
  predicate LogInv(w: World)
  {
    && NoRepeats(w.log)
    && forall x :: x in w.log ==> x.0 <= w.b.rEpoch && (x.0 == w.b.rEpoch ==> x.1 in w.window)
  }

  /** The invariant is kept by every step. */
  lemma QueueKeeps(w: World, kind: nat, body: seq<byte>, maxLen: nat)
    requires Inv(w)
    ensures Inv(Do(w, Queue(kind, body), maxLen))
  {
    var m, k := Msg(kind, body), w.o.writeSeq;
    InvParts(w);
    if Sendable(m, k) && AddOutgoing(w.o, false, Serialize(Whole(m, k))).Some? {
      hide Serialize, Sound;
      var o := AddOutgoing(w.o, false, Serialize(Whole(m, k))).value;
      AddAccounted(w.o, false, Serialize(Whole(m, k)));
      QueuedEntries(w, m, o);
      QueuedElsewhere(w, m, o);
    }
  }

  /** The sender's side of a new message. */
  lemma QueuedEntries(w: World, m: Msg, o: Outbox)
    requires Inv(w) && Sendable(m, w.o.writeSeq) && Accounted(o)
    requires AddOutgoing(w.o, false, Serialize(Whole(m, w.o.writeSeq))) == Some(o)
    ensures SenderInv(w.(o := o, queued := w.queued + [m], epochs := w.epochs + [w.o.wEpoch]))
  {
    hide Serialize, Genuine, EntryOf, Accounted, ReceiverInv, LogInv;
    var k, e := w.o.writeSeq, w.o.wEpoch;
    StillGenuine(w, m, e);
    NewEntry(w.queued, w.epochs, m, e);
    var x := Message(Serialize(Whole(m, k)), e, false);
    forall y | y in o.messages && !y.isCcs ensures exists j: nat :: EntryOf(w.queued + [m], w.epochs + [e], y, j) {
      if y == x {
        assert EntryOf(w.queued + [m], w.epochs + [e], y, k);
      } else {
        assert y in w.o.messages;
      }
    }
  }

  /** And the receiver's. */
  lemma QueuedElsewhere(w: World, m: Msg, o: Outbox)
    requires Inv(w)
    ensures var w' := w.(o := o, queued := w.queued + [m], epochs := w.epochs + [w.o.wEpoch]); ReceiverInv(w') && LogInv(w')
  {
    hide SenderInv, Agrees, Complete;
    StillAgrees(w.queued, m, w.b);
    assert (w.queued + [m])[..w.b.readSeq] == w.queued[..w.b.readSeq];
  }

  lemma NewEntry(queued: seq<Msg>, epochs: seq<nat>, m: Msg, e: nat)
    requires |queued| == |epochs| && Sendable(m, |queued|)
    ensures EntryOf(queued + [m], epochs + [e], Message(Serialize(Whole(m, |queued|)), e, false), |queued|)
  {
    hide Serialize;
  }

  lemma StillAgrees(queued: seq<Msg>, m: Msg, b: Inbox)
    requires Ring(b) && RingAgrees(queued, b)
    ensures RingAgrees(queued + [m], b)
  {
    hide Complete;
    forall i | 0 <= i < FLIGHT && b.ring[i].Some? ensures Agrees(queued + [m], b.ring[i].value) {
      assert Agrees(queued, b.ring[i].value);
    }
  }

  /** A step of the sender: it queues no handshake message, and what it puts on the network is
    * genuine and logged. */
  lemma SenderMoves(w: World, o: Outbox, net: set<Sealed>)
    requires Inv(w) && Accounted(o) && o.writeSeq == w.o.writeSeq && w.o.log <= o.log
    requires forall m :: m in o.messages ==> m.isCcs || m in w.o.messages
    requires forall r :: r in net ==> r in w.net || (Genuine(w.queued, w.epochs, r) && r in o.log)
    ensures Inv(w.(o := o, net := net))
  {
    hide Genuine, EntryOf, Agrees, Accounted, Pure, LogInv, Ring;
    LogSame(w, w.(o := o, net := net));
    forall r | r in net ensures Genuine(w.queued, w.epochs, r) && r in o.log {
      if r in w.net { assert r in w.o.log; }
    }
    forall m | m in o.messages && !m.isCcs ensures exists k: nat :: EntryOf(w.queued, w.epochs, m, k) {
      assert m in w.o.messages;
    }
  }

  lemma InvEntries(w: World)
    requires Inv(w)
    ensures Accounted(w.o) && Entries(w.queued, w.epochs, w.o.messages)
  {
  }

  lemma LogSame(w: World, w': World)
    requires LogInv(w) && w'.log == w.log && w'.b == w.b && w'.window == w.window
    ensures LogInv(w')
  {
  }

  lemma SendKeeps(w: World, mtu: nat, written: bool)
    requires Inv(w)
    ensures Inv(SendPacket(w, mtu, written))
  {
    InvEntries(w);
    AccountedParts(w.o);
    var o := w.o;
    if o.written < |o.messages| {
      hide Inv, Path, SealLoop, Genuine, Positioned, Accounted, Flights.Skips, TotalSize, Entries;
      var p := SealNextPacket(o, mtu);
      SendAccounted(o, mtu, written);
      ReachedSelf(o);
      PacketPath(o, o, mtu, mtu, []);
      PacketLogged(o, mtu, []);
      if p.ok {
        PathGenuine(w.queued, w.epochs, o.messages, o.written, o.offset, p.records, p.o.written, p.o.offset);
      }
      var w' := SendPacket(w, mtu, written);
      SenderMoves(w, w'.o, w'.net);
    }
  }

  /** Sealing adds to the log, and what is in a packet is in the log. */
  lemma {:induction false} PacketLogged(o: Outbox, maxOut: nat, sealed: seq<Sealed>)
    requires o.written <= |o.messages| && forall r :: r in sealed ==> r in o.log
    ensures var p := SealLoop(o, maxOut, sealed);
            o.log <= p.o.log && forall r :: r in p.records ==> r in p.o.log
    decreases |o.messages| - o.written
  {
    hide SealNextMessage;
    if o.written < |o.messages| {
      SealLogged(o, maxOut);
      SealKeepsQueue(o, maxOut);
      var s := SealNextMessage(o, maxOut);
      forall r | r in sealed ensures r in s.o.log { assert r in o.log; }
      if s.ret.Progress? && s.ret.whole {
        PacketLogged(s.o.(written := s.o.written + 1), maxOut - s.ret.record.size, sealed + [s.ret.record]);
      }
    }
  }

  lemma SealLogged(o: Outbox, maxOut: nat)
    requires o.written < |o.messages|
    ensures var s := SealNextMessage(o, maxOut);
            o.log <= s.o.log && (s.ret.Progress? ==> s.ret.record in s.o.log)
  {
    hide Content, Serialize, SealRecord;
    forall kind, payload, previous | previous ==> o.wEpoch >= 1
      ensures var s := SealRecord(o, kind, payload, previous, maxOut);
              o.log <= s.o.log && (s.ret.Progress? ==> s.ret.record in s.o.log)
    {
      RecordLogged(o, kind, payload, previous, maxOut);
    }
  }

  lemma RecordLogged(o: Outbox, kind: nat, payload: seq<byte>, previous: bool, maxOut: nat)
    requires previous ==> o.wEpoch >= 1
    ensures var s := SealRecord(o, kind, payload, previous, maxOut);
            o.log <= s.o.log && (s.ret.Progress? ==> s.ret.record in s.o.log)
  {
  }

  lemma OutboxStepKeeps(w: World, a: Action, maxLen: nat)
    requires Inv(w) && (a.QueueCcs? || a.Flush? || a.Rewind? || a.ChangeWriteState? || a.Reply? || a.Finish?)
    ensures Inv(Do(w, a, maxLen))
  {
    InvParts(w);
    hide Inv, Sound, SendPacket, ReceiveRecord, AddOutgoing, SetWriteState, Clear, Serialize, Flights.Rewound, GetMessage;
    match a
    case QueueCcs => if AddOutgoing(w.o, true, []).Some? { CcsMoves(w); }
    case Flush => FlagsMove(w, w.o.(complete := true));
    case Rewind => RewindMoves(w);
    case ChangeWriteState(aead) => EpochMoves(w, aead);
    case Reply => if w.o.complete { FlagsMove(w, w.o.(hasReply := true)); }
    case Finish => if w.o.hasReply { ClearMoves(w); }
  }

  lemma CcsMoves(w: World)
    requires Inv(w) && AddOutgoing(w.o, true, []).Some?
    ensures Inv(w.(o := AddOutgoing(w.o, true, []).value))
  {
    InvEntries(w);
    hide Inv, Accounted, Entries;
    AddAccounted(w.o, true, []);
    SenderMoves(w, AddOutgoing(w.o, true, []).value, w.net);
  }

  lemma FlagsMove(w: World, o: Outbox)
    requires Inv(w) && o == w.o.(complete := o.complete, hasReply := o.hasReply) && (o.hasReply ==> o.complete)
    ensures Inv(w.(o := o))
  {
    InvEntries(w);
    hide Inv, Accounted, Entries;
    FlagsAccounted(w.o, o);
    SenderMoves(w, o, w.net);
  }

  lemma RewindMoves(w: World)
    requires Inv(w)
    ensures Inv(w.(o := Flights.Rewound(w.o)))
  {
    InvEntries(w);
    hide Inv, Accounted, Entries;
    RewindAccounted(w.o);
    SenderMoves(w, Flights.Rewound(w.o), w.net);
  }

  lemma EpochMoves(w: World, aead: Aead)
    requires Inv(w)
    ensures Inv(w.(o := SetWriteState(w.o, aead)))
  {
    InvEntries(w);
    hide Inv, Accounted, Entries;
    EpochAccounted(w.o, aead);
    SenderMoves(w, SetWriteState(w.o, aead), w.net);
  }

  lemma ClearMoves(w: World)
    requires Inv(w)
    ensures Inv(w.(o := Clear(w.o)))
  {
    InvEntries(w);
    hide Inv, Accounted, Entries;
    ClearAccounted(w.o);
    SenderMoves(w, Clear(w.o), w.net);
  }

  lemma ArriveKeeps(w: World, r: Sealed, maxLen: nat)
    requires Inv(w)
    ensures Inv(ReceiveRecord(w, r, maxLen))
  {
    hide Genuine, EntryOf, Entries, Agrees, OpenHandshake, Accounted, Pure;
    var w' := ReceiveRecord(w, r, maxLen);
    if w' != w {
      ReceiveAgrees(w.b, w.queued, w.epochs, r, maxLen);
      OpenKeepsPure(w.b, r.kind, r.payload, w.b.rEpoch == 0, maxLen);
      assert (r.epoch, r.number) !in w.log;
    }
  }

  lemma InboxStepKeeps(w: World, a: Action, maxLen: nat)
    requires Inv(w) && (a.Get? || a.TakeCcs? || a.ChangeReadState?)
    ensures Inv(Do(w, a, maxLen))
  {
    hide Genuine, Entries, Accounted, Agrees, Complete, SendPacket, ReceiveRecord;
    if a.ChangeReadState? && SetReadState(w.b).Some? {
      SetReadStateKeepsPure(w.b);
    }
  }

  lemma NextKeeps(w: World, maxLen: nat)
    requires Inv(w)
    ensures Inv(Do(w, Next, maxLen))
  {
    hide Genuine, Entries, Accounted, Agrees, Complete;
    if w.b.hasMessage {
      CompleteIsQueued(w.b, w.queued);
      NextKeepsPure(w.b);
      assert w.queued[..w.b.readSeq] + [w.queued[w.b.readSeq]] == w.queued[..w.b.readSeq + 1];
    }
  }

  lemma StepKeeps(w: World, a: Action, maxLen: nat)
    requires Inv(w)
    ensures Inv(Do(w, a, maxLen))
  {
    hide Inv, SendPacket, ReceiveRecord;
    InvParts(w);
    match a
    case Queue(kind, body) => QueueKeeps(w, kind, body, maxLen);
    case Send(mtu, written) => SendKeeps(w, mtu, written);
    case Arrive(r) => ArriveKeeps(w, r, maxLen);
    case Next => NextKeeps(w, maxLen);
    case Get => InboxStepKeeps(w, a, maxLen);
    case TakeCcs => InboxStepKeeps(w, a, maxLen);
    case ChangeReadState => InboxStepKeeps(w, a, maxLen);
    case QueueCcs => OutboxStepKeeps(w, a, maxLen);
    case Flush => OutboxStepKeeps(w, a, maxLen);
    case Rewind => OutboxStepKeeps(w, a, maxLen);
    case ChangeWriteState(_) => OutboxStepKeeps(w, a, maxLen);
    case Reply => OutboxStepKeeps(w, a, maxLen);
    case Finish => OutboxStepKeeps(w, a, maxLen);
  }

  lemma InvParts(w: World)
    requires Inv(w)
    ensures Sound(w)
  {
    AccountedParts(w.o);
  }

  lemma StartInv()
    ensures Inv(Start())
  {
  }

  // ---------------------------------------------------------------- every run

  lemma {:induction false} LoopKeepsOk(o: Outbox, maxOut: nat, sealed: seq<Sealed>)
    requires OutboxOk(o)
    ensures var p := SealLoop(o, maxOut, sealed);
            && OutboxOk(p.o)
            && p.o == o.(number := p.o.number, lastNumber := p.o.lastNumber, written := p.o.written, offset := p.o.offset, log := p.o.log)
    decreases |o.messages| - o.written
  {
    hide SealNextMessage;
    if o.written < |o.messages| {
      SealKeepsQueue(o, maxOut);
      var s := SealNextMessage(o, maxOut);
      if s.ret.Progress? && s.ret.whole {
        LoopKeepsOk(s.o.(written := s.o.written + 1), maxOut - s.ret.record.size, sealed + [s.ret.record]);
      }
    }
  }

  lemma SendSound(w: World, mtu: nat, written: bool)
    requires Sound(w)
    ensures Sound(SendPacket(w, mtu, written))
  {
    hide SealLoop, Ring;
    LoopKeepsOk(w.o, mtu, []);
  }

  lemma ReceiveSound(w: World, r: Sealed, maxLen: nat)
    requires Sound(w)
    ensures Sound(ReceiveRecord(w, r, maxLen))
  {
    hide OpenHandshake, OutboxOk;
  }

  /** Every step keeps the bounds that the code's indexing relies on. */
  lemma StepSound(w: World, a: Action, maxLen: nat)
    requires Sound(w)
    ensures Sound(Do(w, a, maxLen))
  {
    hide SendPacket, ReceiveRecord;
    match a
    case Send(mtu, written) => SendSound(w, mtu, written);
    case Arrive(r) => ReceiveSound(w, r, maxLen);
    case _ =>
  }

  /** The world after a sequence of actions. */
  ghost function Run(w: World, actions: seq<Action>, maxLen: nat): (w': World)
    requires Sound(w)
    ensures Sound(w')
    decreases |actions|
  {
    if actions == [] then w
    else
      StepSound(w, actions[0], maxLen);
      Run(Do(w, actions[0], maxLen), actions[1..], maxLen)
  }

  lemma RunNone(w: World, maxLen: nat)
    requires Sound(w)
    ensures Run(w, [], maxLen) == w
  {
  }

  lemma RunFirst(w: World, a: Action, rest: seq<Action>, maxLen: nat)
    requires Sound(w)
    ensures Sound(Do(w, a, maxLen)) && Run(w, [a] + rest, maxLen) == Run(Do(w, a, maxLen), rest, maxLen)
  {
    hide Do, Sound;
    StepSound(w, a, maxLen);
    assert ([a] + rest)[1..] == rest;
  }

  lemma {:induction false} RunCat(w: World, a: seq<Action>, b: seq<Action>, maxLen: nat)
    requires Sound(w)
    ensures Run(w, a + b, maxLen) == Run(Run(w, a, maxLen), b, maxLen)
    decreases |a|
  {
    hide Do, Sound;
    if a == [] {
      assert a + b == b;
    } else {
      StepSound(w, a[0], maxLen);
      assert (a + b)[0] == a[0] && (a + b)[1..] == a[1..] + b;
      RunCat(Do(w, a[0], maxLen), a[1..], b, maxLen);
    }
  }

  lemma {:induction false} RunKeeps(w: World, actions: seq<Action>, maxLen: nat)
    requires Inv(w)
    ensures Inv(Run(w, actions, maxLen))
    decreases |actions|
  {
    InvParts(w);
    hide Inv, Do;
    if actions != [] {
      StepKeeps(w, actions[0], maxLen);
      RunKeeps(Do(w, actions[0], maxLen), actions[1..], maxLen);
    }
  }

  /** End-to-end delivery: whatever the packet sizes, retransmissions, losses, repetitions and
    * reorderings, the messages the receiver has consumed are a byte-identical prefix of those the
    * sender queued, and the one it is offered next is the next of them. */
  lemma {:induction false} DeliveredIsPrefix(actions: seq<Action>, maxLen: nat)
    ensures var w := Run(Start(), actions, maxLen);
            && |w.delivered| == w.b.readSeq && w.delivered <= w.queued
            && (GetMessage(w.b).Some? ==>
                  |w.delivered| < |w.queued| && GetMessage(w.b).value == w.queued[|w.delivered|])
  {
    StartInv();
    RunKeeps(Start(), actions, maxLen);
    var w := Run(Start(), actions, maxLen);
    if GetMessage(w.b).Some? {
      CompleteIsQueued(w.b, w.queued);
    }
  }

  /** In every run each (epoch, sequence number) passes the record layer at most once, and every
    * fragment in the ring, except those of the message being read, arrived in the current epoch. */
  lemma {:induction false} AcceptedOnceAndPure(actions: seq<Action>, maxLen: nat)
    ensures var w := Run(Start(), actions, maxLen); NoRepeats(w.log) && Pure(w.b)
  {
    StartInv();
    RunKeeps(Start(), actions, maxLen);
  }

  /** In every run each record on the network is a piece of a queued message, sealed under the epoch that
    * message was queued in, or a ChangeCipherSpec. */
  lemma {:induction false} RecordsAreGenuine(actions: seq<Action>, maxLen: nat, r: Sealed)
    requires r in Run(Start(), actions, maxLen).net
    ensures var w := Run(Start(), actions, maxLen);
            if r.kind == RT_HANDSHAKE then exists k: nat, off: nat, n: nat :: PieceOf(w.queued, w.epochs, r, k, off, n)
            else r.kind == RT_CHANGE_CIPHER_SPEC && r.payload == [MT_CCS]
  {
    StartInv();
    RunKeeps(Start(), actions, maxLen);
    var w := Run(Start(), actions, maxLen);
    assert Genuine(w.queued, w.epochs, r);
  }
}
