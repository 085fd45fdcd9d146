/**
 * The DTLS handshake receiver as it runs (d1_both.cc, dtls_method.cc): a ring of fragment objects
 * updated in place. Every method takes the state to what Incoming says.
 */
module DtlsReceiver {
  import opened Bytes
  import opened Fragments
  import opened Reassembly
  import opened Incoming
  import opened DtlsRecord

  class Receiver {
    const ring: array<HmFragment?>
    var readSeq: nat
    var rEpoch: nat
    var hasCcs: bool
    var hasMessage: bool
    ghost var Repr: set<object>

    /** The fragments in the ring own their arrays. */
    ghost predicate Owns()
      reads this, Repr
    {
      && this in Repr && ring in Repr && ring.Length == FLIGHT
      && (forall i :: 0 <= i < FLIGHT && ring[i] != null ==>
            && ring[i] in Repr && ring[i].Repr() <= Repr
            && this !in ring[i].Repr() && ring !in ring[i].Repr()
            && ring[i].Valid())
      && forall i, j :: 0 <= i < j < FLIGHT && ring[i] != null && ring[j] != null ==> ring[i].Repr() !! ring[j].Repr()
    }

    ghost function Slot(i: nat): Option<Partial>
      requires Owns() && i < FLIGHT
      reads this, Repr
    {
      if ring[i] == null then None else Some(ring[i].Abs())
    }

    ghost function Abs(): (b: Inbox)
      requires Owns()
      reads this, Repr
      ensures |b.ring| == FLIGHT
    {
      Inbox(readSeq, seq(FLIGHT, i requires Owns() && 0 <= i < FLIGHT reads this, Repr => Slot(i)),
                  rEpoch, hasCcs, hasMessage)
    }

    ghost predicate Valid()
      reads this, Repr
    {
      Owns() && Ring(Abs())
    }

    constructor ()
      ensures Valid() && fresh(Repr) && Abs() == Empty()
    {
      ring := new HmFragment?[FLIGHT](i => null);
      readSeq, rEpoch, hasCcs, hasMessage := 0, 0, false, false;
      new;
      Repr := {this, ring};
      assert Abs().ring == Empty().ring;
    }

    /** dtls1_is_current_message_complete */
    method IsCurrentMessageComplete() returns (complete: bool)
      requires Valid()
      ensures complete == CurrentComplete(Abs())
    {
      var frag := ring[readSeq % FLIGHT];
      if frag != null { frag.CompleteWhenUnmasked(); }
      return frag != null && frag.reassembly == null;
    }

    /** Creates the fragment for a slot that has none. */
    method NewIncoming(f: Fragment) returns (frag: HmFragment)
      requires Owns() && Fits(f) && ring[f.seq_ % FLIGHT] == null
      modifies ring, this`Repr
      ensures Owns() && fresh(Repr - old(Repr)) && frag == ring[f.seq_ % FLIGHT]
      ensures frag.Abs() == NewPartial(f, rEpoch)
      ensures Abs() == old(Abs()).(ring := old(Abs()).ring[f.seq_ % FLIGHT := Some(NewPartial(f, rEpoch))])
    {
      hide HmFragment.Valid, HmFragment.Abs;
      ghost var b := Abs();
      frag := new HmFragment(f.kind, f.seq_, f.msgLen, rEpoch);
      ring[f.seq_ % FLIGHT] := frag;
      Repr := Repr + frag.Repr();
      assert Abs().ring == b.ring[f.seq_ % FLIGHT := Some(frag.Abs())];
    }

    /** dtls1_get_incoming_message: the slot's fragment, created when there is none. */
    method GetIncomingMessage(f: Fragment) returns (frag: HmFragment?, alert: AlertCode)
      requires Valid() && Fits(f)
      modifies ring, this`Repr
      ensures Owns() && fresh(Repr - old(Repr))
      ensures var b := old(Abs());
              if f.seq_ < b.readSeq || f.seq_ - b.readSeq >= FLIGHT
              then frag == null && alert == InternalError && Abs() == b
              else
                var i := f.seq_ % FLIGHT;
                var p := if b.ring[i].Some? then b.ring[i].value else NewPartial(f, b.rEpoch);
                if p.kind != f.kind || |p.body| != f.msgLen
                then frag == null && alert == IllegalParameter && Abs() == b
                else
                  && frag != null && frag == ring[i] && frag.Abs() == p
                  && Abs() == b.(ring := b.ring[i := Some(p)])
    {
      hide Complete, CurrentComplete, HmFragment.Valid, HmFragment.Abs, HmFragment.Repr;
      alert := InternalError;
      if f.seq_ < readSeq || f.seq_ - readSeq >= FLIGHT {
        return null, InternalError;
      }
      var i := f.seq_ % FLIGHT;
      frag := ring[i];
      if frag != null {
        ghost var p := frag.Abs();
        assert Abs().ring[i] == Some(p);
        SameSlot(readSeq, f.seq_, frag.seq_);
        assert frag.seq_ == f.seq_;
        if frag.kind != f.kind || frag.msgLen != f.msgLen {
          return null, IllegalParameter;
        }
        assert Abs().ring[i := Some(p)] == Abs().ring;
        return frag, alert;
      }
      assert Abs().ring[i].None?;
      frag := NewIncoming(f);
    }

    /** The copy and the marking for the fragment in slot i. */
    method StoreAt(i: nat, f: Fragment)
      requires Owns() && i < FLIGHT && ring[i] != null && ring[i].reassembly != null && f.off + |f.body| <= ring[i].msgLen
      modifies Repr
      ensures Owns() && Repr == old(Repr)
      ensures Abs() == old(Abs()).(ring := old(Abs()).ring[i := Some(Fill(old(Abs()).ring[i].value, f.off, f.body, rEpoch))])
    {
      hide Fill, HmFragment.Valid, HmFragment.Abs;
      ghost var b := Abs();
      assert b.ring[i] == Some(ring[i].Abs());
      ring[i].Store(f.off, f.body, rEpoch);
      assert Abs().ring == b.ring[i := Some(ring[i].Abs())];
    }

    /** The processing of one fragment in the loop of dtls1_open_handshake. */
    method InsertFragment(f: Fragment, maxLen: nat) returns (ok: bool, alert: AlertCode)
      requires Valid() && Fits(f)
      modifies Repr
      ensures Valid() && fresh(Repr - old(Repr))
      ensures Insert(old(Abs()), f, maxLen) == if ok then Stored(Abs()) else Rejected(Abs(), alert)
    {
      hide Complete, NewPartial, Fill, HmFragment.Valid, HmFragment.Abs, HmFragment.Repr, Ring;
      ghost var b0 := Abs();
      RingLengths(b0);
      InsertKeepsRing(b0, f, maxLen);
      ok, alert := true, InternalError;
      if f.off > f.msgLen || f.off + |f.body| > f.msgLen || f.msgLen > maxLen {
        return false, IllegalParameter;
      }
      if rEpoch == 1 && f.seq_ != readSeq {
        return false, UnexpectedMessage;
      }
      if f.seq_ < readSeq || f.seq_ > readSeq + FLIGHT {
        return;
      }
      var frag;
      frag, alert := GetIncomingMessage(f);
      if frag == null {
        return false, alert;
      }
      var i := f.seq_ % FLIGHT;
      ghost var b := Abs();
      assert b.ring == b0.ring[i := Some(frag.Abs())];
      frag.CompleteWhenUnmasked();
      if frag.reassembly == null {
        return;
      }
      StoreAt(i, f);
      assert Abs().ring == b0.ring[i := Some(Fill(b.ring[i].value, f.off, f.body, rEpoch))];
    }

    /** The loop of dtls1_open_handshake over the fragments of one record. */
    method InsertFragments(record: seq<byte>, maxLen: nat) returns (ok: bool, alert: AlertCode)
      requires Valid()
      modifies Repr
      ensures Valid() && fresh(Repr - old(Repr))
      ensures InsertAll(old(Abs()), record, maxLen) == if ok then Stored(Abs()) else Rejected(Abs(), alert)
    {
      hide Ring, ParseFragment, Insert, Receiver.Owns, Receiver.Abs;
      var cbs := record;
      alert := InternalError;
      while |cbs| > 0
        invariant Valid() && fresh(Repr - old(Repr))
        invariant InsertAll(old(Abs()), record, maxLen) == InsertAll(Abs(), cbs, maxLen)
        decreases |cbs|
      {
        var p := ParseFragment(cbs);
        if p.Fail? {
          return false, DecodeError;
        }
        ParsedFits(cbs);
        ok, alert := InsertFragment(p.value, maxLen);
        if !ok {
          return;
        }
        cbs := p.rest;
      }
      return true, alert;
    }

    /** dtls1_open_handshake once the record layer has let a record through. */
    method OpenHandshake(kind: nat, record: seq<byte>, nullCipher: bool, maxLen: nat) returns (ret: Verdict)
      requires Valid()
      modifies Repr
      ensures Valid() && fresh(Repr - old(Repr))
      ensures Incoming.OpenHandshake(old(Abs()), kind, record, nullCipher, maxLen) == Opened(Abs(), ret)
    {
      hide InsertAll, HmFragment.Valid, HmFragment.Abs, HmFragment.Repr;
      if kind == RT_APPLICATION_DATA {
        return if nullCipher then Fatal(UnexpectedMessage) else Dropped;
      } else if kind == RT_CHANGE_CIPHER_SPEC {
        if !nullCipher {
          return Fatal(UnexpectedMessage);
        }
        if |record| != 1 || record[0] != MT_CCS {
          return Fatal(IllegalParameter);
        }
        ghost var b := Abs();
        hasCcs := true;
        assert Abs() == b.(hasCcs := true);
        return Delivered;
      } else if kind == RT_HANDSHAKE {
        var ok, alert := InsertFragments(record, maxLen);
        return if ok then Delivered else Fatal(alert);
      } else {
        return Fatal(UnexpectedMessage);
      }
    }

    /** dtls1_get_message */
    method GetMessage() returns (out: Option<Msg>)
      requires Valid()
      modifies this`hasMessage
      ensures Valid() && Repr == old(Repr)
      ensures out == Incoming.GetMessage(old(Abs()))
      ensures Abs() == old(Abs()).(hasMessage := old(hasMessage) || out.Some?)
    {
      hide HmFragment.Valid, HmFragment.Abs, HmFragment.Repr;
      ghost var b := Abs();
      var complete := IsCurrentMessageComplete();
      if !complete {
        return None;
      }
      var frag := ring[readSeq % FLIGHT];
      var body := frag.Body();
      if !hasMessage {
        hasMessage := true;
      }
      assert Abs() == b.(hasMessage := true);
      return Some(Msg(frag.kind, body));
    }

    /** dtls1_next_message. That a message is there, the first assertion, is up to the caller; that it
      * is complete, the second, holds in every valid state. */
    method NextMessage()
      requires Valid() && hasMessage
      modifies this, ring
      ensures Valid() && Repr == old(Repr) && Abs() == Incoming.NextMessage(old(Abs()))
      ensures old(CurrentComplete(Abs()))
    {
      hide HmFragment.Valid, HmFragment.Abs, HmFragment.Repr, Ring, Complete;
      ghost var b := Abs();
      RingCurrent(b);
      ring[readSeq % FLIGHT] := null;
      readSeq := readSeq + 1;
      hasMessage := false;
      assert Abs().ring == b.ring[Current(b) := None];
      assert Abs() == Incoming.NextMessage(b);
    }

    /** dtls_has_unprocessed_handshake_data */
    method HasUnprocessedHandshakeData() returns (unprocessed: bool)
      requires Valid()
      ensures unprocessed == HasUnprocessed(Abs())
    {
      hide HmFragment.Valid, HmFragment.Abs, HmFragment.Repr, Complete;
      if hasCcs {
        return true;
      }
      var current := readSeq % FLIGHT;
      for i := 0 to FLIGHT
        invariant forall j :: 0 <= j < i && !(hasMessage && j == current) ==> ring[j] == null
      {
        if hasMessage && i == current {
          continue;
        }
        if ring[i] != null {
          assert Abs().ring[i].Some?;
          return true;
        }
      }
      return false;
    }

    /** The handshake part of dtls1_set_read_state. */
    method SetReadState() returns (ok: bool)
      requires Valid()
      modifies this`rEpoch
      ensures Valid() && Repr == old(Repr)
      ensures Incoming.SetReadState(old(Abs())) == if ok then Some(Abs()) else None
      ensures !ok ==> Abs() == old(Abs())
    {
      hide HmFragment.Valid, HmFragment.Abs, HmFragment.Repr, Complete, HasUnprocessed;
      ghost var b := Abs();
      var unprocessed := HasUnprocessedHandshakeData();
      if unprocessed {
        return false;
      }
      rEpoch := rEpoch + 1;
      assert Abs() == b.(rEpoch := b.rEpoch + 1);
      return true;
    }

    /** dtls1_open_change_cipher_spec: a pending ChangeCipherSpec is handed over without looking at the
      * record; otherwise the record is processed first, and dropped if it brings none. */
    method OpenChangeCipherSpec(kind: nat, record: seq<byte>, nullCipher: bool, maxLen: nat) returns (ret: Verdict)
      requires Valid()
      modifies Repr
      ensures Valid() && fresh(Repr - old(Repr))
      ensures old(hasCcs) ==> ret == Delivered && Abs() == old(Abs()).(hasCcs := false)
      ensures !old(hasCcs) ==>
                var o := Incoming.OpenHandshake(old(Abs()), kind, record, nullCipher, maxLen);
                && (ret == Delivered <==> o.ret == Delivered && o.b.hasCcs)
                && (ret != Delivered ==> ret == if o.ret == Delivered then Dropped else o.ret)
                && Abs() == if o.ret == Delivered then o.b.(hasCcs := false) else o.b
    {
      hide HmFragment.Valid, HmFragment.Abs, HmFragment.Repr, Incoming.OpenHandshake;
      if !hasCcs {
        ret := OpenHandshake(kind, record, nullCipher, maxLen);
        if ret != Delivered {
          return;
        }
      }
      var taken := TakeChangeCipherSpec();
      return if taken then Delivered else Dropped;
    }

    /** The flag is cleared when it is handed over. */
    method TakeChangeCipherSpec() returns (taken: bool)
      requires Valid()
      modifies this`hasCcs
      ensures Valid() && Repr == old(Repr)
      ensures taken == old(Abs()).hasCcs && Abs() == old(Abs()).(hasCcs := false)
    {
      hide HmFragment.Valid, HmFragment.Abs, HmFragment.Repr, Complete;
      ghost var b := Abs();
      taken := hasCcs;
      hasCcs := false;
      assert Abs() == b.(hasCcs := false);
    }
  }
}
