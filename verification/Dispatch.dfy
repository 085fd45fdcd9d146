/**
 * What becomes of a record that has passed the record layer (dtls1_open_handshake and
 * dtls1_open_change_cipher_spec in d1_both.cc), by its type, and the ChangeCipherSpec over whole runs.
 */
module Dispatch {
  import opened Bytes
  import opened Fragments
  import opened Reassembly
  import opened Incoming
  import opened Outgoing
  import opened Account
  import opened Delivery

  // ---------------------------------------------------------------- by type

  /** A ChangeCipherSpec is flagged exactly if it is unencrypted and holds the one byte 1. */
  lemma ChangeCipherSpecVerdict(b: Inbox, data: seq<byte>, nullCipher: bool, maxLen: nat)
    requires Ring(b)
    ensures var o := OpenHandshake(b, 20, data, nullCipher, maxLen);
            && (o.ret == Delivered <==> nullCipher && data == [1])
            && o.b == (if o.ret == Delivered then b.(hasCcs := true) else b)
            && (o.ret != Delivered ==> o.ret == Fatal(if nullCipher then IllegalParameter else UnexpectedMessage))
  {
  }

  /** Application data is fatal before encryption and dropped from then on; a type that is neither it,
    * ChangeCipherSpec nor a handshake message is always fatal. None of them changes anything. */
  lemma OtherVerdict(b: Inbox, kind: nat, data: seq<byte>, nullCipher: bool, maxLen: nat)
    requires Ring(b) && kind != 20 && kind != 22
    ensures OpenHandshake(b, kind, data, nullCipher, maxLen) ==
            Opened(b, if kind == 23 && !nullCipher then Dropped else Fatal(UnexpectedMessage))
  {
  }

  /** The fragments of a handshake record are taken one after another up to the first that is refused;
    * what is no fragment is fatal, and the fragments in front of it stay. */
  lemma HandshakeVerdict(b: Inbox, f: Fragment, data: seq<byte>, nullCipher: bool, maxLen: nat)
    requires Ring(b) && Fits(f)
    ensures OpenHandshake(b, 22, [], nullCipher, maxLen) == Opened(b, Delivered)
    ensures data != [] && ParseFragment(data).Fail? ==> OpenHandshake(b, 22, data, nullCipher, maxLen) == Opened(b, Fatal(DecodeError))
    ensures var o := Insert(b, f, maxLen);
            && Ring(o.b)
            && OpenHandshake(b, 22, Serialize(f) + data, nullCipher, maxLen) ==
               if o.Stored? then OpenHandshake(o.b, 22, data, nullCipher, maxLen) else Opened(o.b, Fatal(o.alert))
  {
    hide Insert, ParseFragment, Serialize, Ring;
    InsertKeepsRing(b, f, maxLen);
    FragmentRoundTrip(f, data);
    assert Serialize(f) + data != [];
  }

  /** A fragment in range whose type or message length is not that of the message it belongs to is
    * refused, and nothing else is wrong with a fragment in range but its own offsets, an over-long
    * message and, in the first encrypted epoch, any message but the next. */
  lemma FragmentVerdict(b: Inbox, f: Fragment, maxLen: nat)
    requires Ring(b) && b.readSeq <= f.seq_ < b.readSeq + 7
    ensures var o := Insert(b, f, maxLen);
            var p := b.ring[f.seq_ % 7];
            var outside := f.off + |f.body| > f.msgLen || f.msgLen > maxLen;
            var unexpected := b.rEpoch == 1 && f.seq_ != b.readSeq;
            var disagrees := p.Some? && (p.value.kind != f.kind || |p.value.body| != f.msgLen);
            && (o.Rejected? <==> outside || unexpected || disagrees)
            && (o.Rejected? ==> o.b == b && o.alert == if !outside && unexpected then UnexpectedMessage else IllegalParameter)
  {
    hide Complete;
  }

  // ---------------------------------------------------------------- over runs

  /** The step brings a ChangeCipherSpec of the unencrypted epoch that the record layer lets through. */
  ghost predicate Brings(w: World, a: Action)
  {
    a.Arrive? && Accepts(w, a.r) && a.r.kind == 20 && a.r.epoch == 0
  }

  /** Step i brings one, and none was taken since. */
  ghost predicate DueSince(actions: seq<Action>, maxLen: nat, i: nat)
  {
    && i < |actions| && Brings(Run(Start(), actions[..i], maxLen), actions[i])
    && forall j :: i < j < |actions| ==> actions[j] != TakeCcs
  }

  ghost predicate CcsDue(actions: seq<Action>, maxLen: nat)
  {
    exists i: nat :: DueSince(actions, maxLen, i)
  }

  /** Over every run, a ChangeCipherSpec is pending exactly if one has arrived in epoch 0 and none was
    * taken since. */
  lemma {:induction false} CcsPending(actions: seq<Action>, maxLen: nat)
    ensures Run(Start(), actions, maxLen).b.hasCcs <==> CcsDue(actions, maxLen)
    decreases |actions|
  {
    hide Run, Do, Inv, CcsDue, Brings;
    if actions == [] {
      RunNone(Start(), maxLen);
      NoneDue(maxLen);
    } else {
      var n := |actions| - 1;
      CcsPending(actions[..n], maxLen);
      CcsDueLast(actions, maxLen);
      LastStep(actions, maxLen);
      CcsStep(Run(Start(), actions[..n], maxLen), actions[n], maxLen);
    }
  }

  lemma NoneDue(maxLen: nat)
    ensures !CcsDue([], maxLen)
  {
  }

  lemma LastStep(actions: seq<Action>, maxLen: nat)
    requires actions != []
    ensures var w := Run(Start(), actions[..|actions| - 1], maxLen);
            Inv(w) && Sound(w) && Run(Start(), actions, maxLen) == Do(w, actions[|actions| - 1], maxLen)
  {
    hide Inv, Do, Sound;
    var n := |actions| - 1;
    StartInv();
    RunKeeps(Start(), actions[..n], maxLen);
    assert actions == actions[..n] + [actions[n]];
    RunCat(Start(), actions[..n], [actions[n]], maxLen);
    var w := Run(Start(), actions[..n], maxLen);
    StepSound(w, actions[n], maxLen);
    assert [actions[n]][1..] == [];
    RunNone(Do(w, actions[n], maxLen), maxLen);
  }

  lemma CcsDueLast(actions: seq<Action>, maxLen: nat)
    requires actions != []
    ensures var n := |actions| - 1;
            CcsDue(actions, maxLen) <==>
            actions[n] != TakeCcs && (CcsDue(actions[..n], maxLen) || Brings(Run(Start(), actions[..n], maxLen), actions[n]))
  {
    hide DueSince, Run, Brings;
    var n := |actions| - 1;
    DueSinceLast(actions, maxLen, n);
    if CcsDue(actions, maxLen) {
      var i: nat :| DueSince(actions, maxLen, i);
      DueSinceLast(actions, maxLen, i);
    }
    if CcsDue(actions[..n], maxLen) && actions[n] != TakeCcs {
      var i: nat :| DueSince(actions[..n], maxLen, i);
      DueSinceLast(actions, maxLen, i);
    }
  }

  lemma DueSinceLast(actions: seq<Action>, maxLen: nat, i: nat)
    requires actions != []
    ensures var n := |actions| - 1;
            DueSince(actions, maxLen, i) <==>
            if i == n then actions[n] != TakeCcs && Brings(Run(Start(), actions[..n], maxLen), actions[n])
            else actions[n] != TakeCcs && DueSince(actions[..n], maxLen, i)
    ensures DueSince(actions[..|actions| - 1], maxLen, i) ==> i < |actions| - 1
  {
    hide Run, Accepts;
    var n := |actions| - 1;
    if i < n {
      assert actions[..n][..i] == actions[..i];
      assert forall j :: 0 <= j < n ==> actions[j] == actions[..n][j];
    }
  }

  lemma CcsStep(w: World, a: Action, maxLen: nat)
    requires Inv(w) && Sound(w)
    ensures Do(w, a, maxLen).b.hasCcs <==> a != TakeCcs && (w.b.hasCcs || Brings(w, a))
  {
    hide Serialize, Accounted, Entries, Agrees, Complete, Insert, InsertAll, Accepts, OpenHandshake, Outgoing.SealNextPacket;
    if a.Arrive? && Accepts(w, a.r) {
      CcsRecord(w, a.r, maxLen);
    }
  }

  lemma CcsRecord(w: World, r: Sealed, maxLen: nat)
    requires Inv(w) && Ring(w.b) && Accepts(w, r)
    ensures OpenHandshake(w.b, r.kind, r.payload, w.b.rEpoch == 0, maxLen).b.hasCcs <==> w.b.hasCcs || (r.kind == 20 && r.epoch == 0)
  {
    hide Serialize, Accounted, Entries, Agrees, Complete, Insert, InsertAll, ReceiverInv, LogInv, PieceOf;
    assert Genuine(w.queued, w.epochs, r);
    InsertAllKeepsCcs(w.b, r.payload, maxLen);
  }

  lemma {:induction false} InsertAllKeepsCcs(b: Inbox, s: seq<byte>, maxLen: nat)
    requires Ring(b)
    ensures InsertAll(b, s, maxLen).b.hasCcs == b.hasCcs
    decreases |s|
  {
    hide Insert, Complete;
    if s != [] && ParseFragment(s).Got? {
      var Got(f, rest) := ParseFragment(s);
      InsertKeepsRing(b, f, maxLen);
      if Insert(b, f, maxLen).Stored? { InsertAllKeepsCcs(Insert(b, f, maxLen).b, rest, maxLen); }
    }
  }

  /** While one is pending the read epoch cannot change; otherwise it changes exactly if nothing but the
    * message being read is buffered. */
  lemma ReadStateChanges(actions: seq<Action>, maxLen: nat)
    ensures var w := Run(Start(), actions, maxLen);
            var w' := Do(w, ChangeReadState, maxLen);
            && Ring(w.b)
            && (w' == w || w' == w.(b := w.b.(rEpoch := w.b.rEpoch + 1), window := {}))
            && (w' != w <==>
                  && !CcsDue(actions, maxLen)
                  && forall i :: 0 <= i < 7 && w.b.ring[i].Some? ==> w.b.hasMessage && i == w.b.readSeq % 7)
  {
    hide Run, CcsDue, Complete, GetMessage;
    CcsPending(actions, maxLen);
  }
}
