/**
 * Progress of the DTLS receiver in Delivery's world: once fragments that cover the next message have
 * passed the record layer, in whatever order and among whatever else happens, it is offered.
 */
module Arrival {
  import opened Bytes
  import opened Fragments
  import opened Reassembly
  import opened DtlsRecord
  import opened Incoming
  import opened Outgoing
  import opened Account
  import opened Delivery

  /** The step lets in a fragment of message k that starts at off and has n bytes. */
  ghost predicate Arrives(w: World, a: Action, k: nat, off: nat, n: nat)
  {
    a.Arrive? && Accepts(w, a.r) && a.r.kind == RT_HANDSHAKE && PieceOf(w.queued, w.epochs, a.r, k, off, n)
  }

  /** Somewhere in the run a fragment of message k that holds all these bytes is let in. */
  ghost predicate Brings(w: World, actions: seq<Action>, k: nat, bytes: set<nat>, maxLen: nat)
    requires Sound(w)
    decreases |actions|
  {
    if actions == [] then false
    else
      StepSound(w, actions[0], maxLen);
      || (exists off: nat, n: nat :: Arrives(w, actions[0], k, off, n) && forall j :: j in bytes ==> off <= j < off + n)
      || Brings(Do(w, actions[0], maxLen), actions[1..], k, bytes, maxLen)
  }

  /** A fragment of message k is buffered. */
  predicate Begun(b: Inbox, k: nat)
    requires Ring(b)
  {
    b.ring[k % FLIGHT].Some? && b.ring[k % FLIGHT].value.seq_ == k
  }

  /** All bytes that are there in b are there in b'. */
  ghost predicate Grows(b: Inbox, b': Inbox, k: nat)
    requires Ring(b) && Ring(b')
  {
    (Begun(b, k) ==> Begun(b', k)) && forall j: nat :: Has(b, k, j) ==> Has(b', k, j)
  }

  lemma SameRing(b: Inbox, b': Inbox, k: nat)
    requires Ring(b) && Ring(b') && b'.ring == b.ring
    ensures Grows(b, b', k)
  {
  }

  lemma GrowsTrans(b: Inbox, b1: Inbox, b2: Inbox, k: nat)
    requires Ring(b) && Ring(b1) && Ring(b2) && Grows(b, b1, k) && Grows(b1, b2, k)
    ensures Grows(b, b2, k)
  {
    hide Has, Begun, Ring;
    forall j: nat | Has(b, k, j) ensures Has(b2, k, j) { assert Has(b1, k, j); }
  }

  lemma GrownHas(b: Inbox, b': Inbox, k: nat, bytes: set<nat>)
    requires Ring(b) && Ring(b') && Grows(b, b', k) && Begun(b, k) && forall j :: j in bytes ==> Has(b, k, j)
    ensures Begun(b', k) && forall j :: j in bytes ==> Has(b', k, j)
  {
    hide Has, Begun, Ring;
  }

  // ---------------------------------------------------------------- one step

  lemma InsertGrows(b: Inbox, queued: seq<Msg>, k: nat, i: nat, off: nat, n: nat, maxLen: nat)
    requires Ring(b) && RingAgrees(queued, b) && Expected(b, queued, k, maxLen)
    requires i < |queued| && off + n <= |queued[i].body|
    ensures var b' := Insert(b, Cut(queued[i], i, off, n), maxLen).b; Ring(b') && Grows(b, b', k)
  {
    InsertKeepsRing(b, Cut(queued[i], i, off, n), maxLen);
    if i == k {
      InsertHas(b, queued, k, off, n, maxLen);
      HasInBody(b, queued, k);
    } else if b.readSeq <= i < b.readSeq + FLIGHT {
      if i % FLIGHT == k % FLIGHT { SameSlot(b.readSeq, i, k); }
    }
  }

  lemma HasInBody(b: Inbox, queued: seq<Msg>, k: nat)
    requires Ring(b) && RingAgrees(queued, b) && k < |queued|
    ensures forall j: nat :: Has(b, k, j) ==> j < |queued[k].body|
  {
    hide Complete;
    if b.ring[k % FLIGHT].Some? { assert Agrees(queued, b.ring[k % FLIGHT].value); }
  }

  lemma ArriveGrows(w: World, r: Sealed, k: nat, maxLen: nat)
    requires Inv(w) && Expected(w.b, w.queued, k, maxLen)
    ensures var b' := ReceiveRecord(w, r, maxLen).b;
            && Ring(b') && Grows(w.b, b', k)
            && forall off: nat, n: nat :: Arrives(w, Arrive(r), k, off, n) ==>
                 Begun(b', k) && forall j :: off <= j < off + n ==> Has(b', k, j)
  {
    InvParts(w);
    hide Serialize, ParseFragment, Insert, InsertAll, Complete, Agrees, Has, Begun, Grows, Accounted, Pure, LogInv, Entries;
    if !(Accepts(w, r) && r.kind == RT_HANDSHAKE) {
      SameRing(w.b, ReceiveRecord(w, r, maxLen).b, k);
    }
    if Accepts(w, r) && r.kind == RT_HANDSHAKE {
      assert Genuine(w.queued, w.epochs, r);
      var i: nat, at: nat, m: nat :| PieceOf(w.queued, w.epochs, r, i, at, m);
      PieceInserted(w, r, i, at, m, maxLen);
      InsertGrows(w.b, w.queued, k, i, at, m, maxLen);
      forall off: nat, n: nat | Arrives(w, Arrive(r), k, off, n)
        ensures Begun(ReceiveRecord(w, r, maxLen).b, k)
        ensures forall j :: off <= j < off + n ==> Has(ReceiveRecord(w, r, maxLen).b, k, j)
      {
        PieceInserted(w, r, k, off, n, maxLen);
        PieceHas(w.b, w.queued, k, off, n, maxLen);
      }
    }
  }

  lemma PieceHas(b: Inbox, queued: seq<Msg>, k: nat, off: nat, n: nat, maxLen: nat)
    requires Ring(b) && RingAgrees(queued, b) && Expected(b, queued, k, maxLen) && off + n <= |queued[k].body|
    ensures var b' := Insert(b, Cut(queued[k], k, off, n), maxLen).b;
            Ring(b') && Begun(b', k) && forall j :: off <= j < off + n ==> Has(b', k, j)
  {
    hide Insert, Complete, Agrees;
    InsertHas(b, queued, k, off, n, maxLen);
  }

  /** A record that passes the record layer is one insertion. */
  lemma PieceInserted(w: World, r: Sealed, k: nat, off: nat, n: nat, maxLen: nat)
    requires Sound(w) && Accepts(w, r) && r.kind == RT_HANDSHAKE && PieceOf(w.queued, w.epochs, r, k, off, n)
    ensures ReceiveRecord(w, r, maxLen).b == Insert(w.b, Cut(w.queued[k], k, off, n), maxLen).b
  {
    hide Serialize, ParseFragment, Insert, Complete;
    var f := Cut(w.queued[k], k, off, n);
    FragmentRoundTrip(f, []);
    assert Serialize(f) + [] == Serialize(f);
    OneFragment(w.b, r.payload, f, maxLen);
  }

  /** Messages that have been queued stay, and reading only goes forward. */
  lemma StepForward(w: World, a: Action, maxLen: nat)
    requires Sound(w)
    ensures var w' := Do(w, a, maxLen); w.queued <= w'.queued && w.b.readSeq <= w'.b.readSeq
  {
    hide Ring, SendPacket, Serialize, Complete;
    if a.Send? { SendElsewhere(w, a.mtu, a.written); }
  }

  lemma SendElsewhere(w: World, mtu: nat, written: bool)
    requires w.o.written <= |w.o.messages|
    ensures SendPacket(w, mtu, written).b == w.b && SendPacket(w, mtu, written).queued == w.queued
  {
    hide SealLoop;
  }

  /** What the sender does leaves the receiver alone. */
  lemma SenderElsewhere(w: World, a: Action, maxLen: nat)
    requires Sound(w)
    requires a.Queue? || a.QueueCcs? || a.Flush? || a.Send? || a.Rewind? || a.ChangeWriteState? || a.Reply? || a.Finish?
    ensures Do(w, a, maxLen).b == w.b
  {
    hide Ring, SendPacket, Serialize, AddOutgoing;
    if a.Send? { SendElsewhere(w, a.mtu, a.written); }
  }

  /** What the receiver does without a record leaves the ring alone, unless it moves on. */
  lemma RingElsewhere(w: World, a: Action, maxLen: nat)
    requires Sound(w) && (a.Get? || a.Next? || a.TakeCcs? || a.ChangeReadState?)
    requires Do(w, a, maxLen).b.readSeq == w.b.readSeq
    ensures Do(w, a, maxLen).b.ring == w.b.ring
  {
    hide Ring, OutboxOk, Complete;
  }

  /** No step but next_message takes anything away from the next message. */
  lemma StepGrows(w: World, a: Action, maxLen: nat)
    requires Inv(w) && Expected(w.b, w.queued, w.b.readSeq, maxLen)
    requires Sound(w) && Do(w, a, maxLen).b.readSeq == w.b.readSeq
    ensures Ring(Do(w, a, maxLen).b) && Grows(w.b, Do(w, a, maxLen).b, w.b.readSeq)
  {
    StepSound(w, a, maxLen);
    assert Ring(w.b);
    var b' := Do(w, a, maxLen).b;
    if a.Arrive? {
      ArriveGrows(w, a.r, w.b.readSeq, maxLen);
    } else if a.Get? || a.Next? || a.TakeCcs? || a.ChangeReadState? {
      hide Do, Inv, Ring, Grows, Expected;
      RingElsewhere(w, a, maxLen);
      SameRing(w.b, b', w.b.readSeq);
    } else {
      hide Do, Inv, Ring, Grows, Expected;
      SenderElsewhere(w, a, maxLen);
      SameRing(w.b, b', w.b.readSeq);
    }
  }

  // ---------------------------------------------------------------- whole runs

  lemma {:induction false} RunForward(w: World, actions: seq<Action>, maxLen: nat)
    requires Sound(w)
    ensures var w' := Run(w, actions, maxLen); w.queued <= w'.queued && w.b.readSeq <= w'.b.readSeq
    decreases |actions|
  {
    hide Sound, Do;
    if actions != [] {
      StepSound(w, actions[0], maxLen);
      StepForward(w, actions[0], maxLen);
      RunForward(Do(w, actions[0], maxLen), actions[1..], maxLen);
    }
  }

  lemma {:induction false} RunBrings(w: World, actions: seq<Action>, bytes: set<nat>, maxLen: nat)
    requires Inv(w) && Sound(w) && Expected(w.b, w.queued, w.b.readSeq, maxLen)
    requires Run(w, actions, maxLen).b.readSeq == w.b.readSeq
    ensures var k, b' := w.b.readSeq, Run(w, actions, maxLen).b;
            && Ring(b') && Grows(w.b, b', k)
            && (Brings(w, actions, k, bytes, maxLen) ==> Begun(b', k) && forall j :: j in bytes ==> Has(b', k, j))
    decreases |actions|
  {
    assert Ring(w.b);
    hide Inv, Sound, Do, Arrives, Has, Begun, Ring, Grows;
    if actions == [] {
      SameRing(w.b, w.b, w.b.readSeq);
    }
    if actions != [] {
      var a, k := actions[0], w.b.readSeq;
      var w1 := Do(w, a, maxLen);
      StepSound(w, a, maxLen);
      StepKeeps(w, a, maxLen);
      StepForward(w, a, maxLen);
      RunForward(w1, actions[1..], maxLen);
      StillExpected(w, w1, maxLen);
      StepGrows(w, a, maxLen);
      RunBrings(w1, actions[1..], bytes, maxLen);
      GrowsTrans(w.b, w1.b, Run(w, actions, maxLen).b, k);
      if off: nat, n: nat :| Arrives(w, a, k, off, n) && forall j :: j in bytes ==> off <= j < off + n {
        ArrivedHas(w, a, k, off, n, maxLen);
        GrownHas(w1.b, Run(w, actions, maxLen).b, k, bytes);
      }
    }
  }

  lemma ArrivedHas(w: World, a: Action, k: nat, off: nat, n: nat, maxLen: nat)
    requires Inv(w) && Sound(w) && Expected(w.b, w.queued, k, maxLen) && Arrives(w, a, k, off, n)
    ensures var b' := Do(w, a, maxLen).b; Ring(b') && Begun(b', k) && forall j: nat :: off <= j < off + n ==> Has(b', k, j)
  {
    hide Inv, Has, Begun, Ring, ReceiveRecord;
    ArriveGrows(w, a.r, k, maxLen);
  }

  lemma StillExpected(w: World, w1: World, maxLen: nat)
    requires Expected(w.b, w.queued, w.b.readSeq, maxLen) && w.queued <= w1.queued && w1.b.readSeq == w.b.readSeq
    ensures Expected(w1.b, w1.queued, w1.b.readSeq, maxLen)
  {
    assert w1.queued[w.b.readSeq] == w.queued[w.b.readSeq];
  }

  /** Liveness: in any run that does not move on from the next message, if every byte of it that was
    * not there before is in some fragment that passed the record layer, and at least one fragment
    * did, then the message is offered at the end and is the one that was sent. In between there may
    * be fragments of other messages, repetitions, losses, replays, errors and epoch changes. */
  lemma {:induction false} CoveredIsDelivered(w: World, actions: seq<Action>, maxLen: nat)
    requires Inv(w) && Sound(w) && Expected(w.b, w.queued, w.b.readSeq, maxLen)
    requires Run(w, actions, maxLen).b.readSeq == w.b.readSeq
    requires Begun(w.b, w.b.readSeq) || Brings(w, actions, w.b.readSeq, {}, maxLen)
    requires forall j: nat :: j < |w.queued[w.b.readSeq].body| ==>
               Has(w.b, w.b.readSeq, j) || Brings(w, actions, w.b.readSeq, {j}, maxLen)
    ensures Ring(Run(w, actions, maxLen).b)
    ensures GetMessage(Run(w, actions, maxLen).b) == Some(w.queued[w.b.readSeq])
  {
    var k, w' := w.b.readSeq, Run(w, actions, maxLen);
    RunKeeps(w, actions, maxLen);
    RunForward(w, actions, maxLen);
    RunBrings(w, actions, {}, maxLen);
    forall j: nat | j < |w.queued[k].body| ensures Has(w'.b, k, j) {
      RunBrings(w, actions, {j}, maxLen);
    }
    AllThere(w'.b, w'.queued, k);
    assert w'.queued[k] == w.queued[k];
  }

  lemma AllThere(b: Inbox, queued: seq<Msg>, k: nat)
    requires Ring(b) && RingAgrees(queued, b) && k == b.readSeq < |queued| && Begun(b, k)
    requires forall j: nat :: j < |queued[k].body| ==> Has(b, k, j)
    ensures GetMessage(b) == Some(queued[k])
  {
    var p := b.ring[k % FLIGHT].value;
    assert Agrees(queued, p);
    forall j | 0 <= j < |p.have| ensures p.have[j] { assert Has(b, k, j); }
    CompleteIsQueued(b, queued);
  }
}
