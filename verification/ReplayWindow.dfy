/**
 * The DTLS replay window (dtls_record.cc, DTLS1_BITMAP): a bit map of the last 64 sequence
 * numbers that decides as the set of all accepted ones would.
 */
module ReplayWindow {
  import opened Bytes
  import opened Bits
  import opened Cbs

  const WINDOW: nat := 64

  /** Discarded as a replay: already accepted, or at least 64 below an accepted number. */
  ghost predicate Replayed(accepted: set<nat>, u: nat)
  {
    u in accepted || exists a :: a in accepted && u + WINDOW <= a
  }

  /** Bit k of the map stands for `max - k`. */
  ghost predicate Represents(map_: nat, max: nat, accepted: set<nat>)
  {
    && (forall k: nat :: Bit(map_, k) <==> k < WINDOW && k <= max && max - k in accepted)
    && (forall a :: a in accepted ==> a <= max)
    && (accepted == {} ==> max == 0)
    && (accepted != {} ==> max in accepted)
  }

  /** to_u64_be */
  method ToU64Be(input: seq<byte>) returns (ret: nat)
    requires |input| == 8
    ensures ret == BigEndian(input)
  {
    ret := 0;
    for i := 0 to 8
      invariant ret == BigEndian(input[..i]) && ret < Pow2(8 * i)
    {
      BigEndianBound(input[..i + 1]);
      assert input[..i + 1][..i] == input[..i];
      BytePush(ret, input[i], i);
      ret := Or(U64(ret * 256), input[i]);
    }
    assert input[..8] == input;
  }

  /** `ret <<= 8; ret |= b` on 64-bit words. */
  lemma BytePush(ret: nat, b: byte, i: nat)
    requires i < 8 && ret < Pow2(8 * i)
    ensures Or(U64(ret * 256), b) == 256 * ret + b
  {
    hide Or, Pow2;
    PowUpTo56(i);
    Widths();
    OrComm(ret * 256, b);
    OrDisjoint(b, ret, 8);
    assert ret * Pow2(8) == ret * 256;
  }

  lemma PowUpTo56(i: nat)
    requires i < 8
    ensures Pow2(8 * i) <= 0x100_0000_0000_0000
  {
    Widths();
    Pow2Step7(48);
    assert Pow2(56) == 256 * Pow2(48);
    Pow2Grows(8 * i, 56);
  }

  lemma {:induction false} OrComm(a: nat, b: nat)
    ensures Or(a, b) == Or(b, a)
  {
    if a != 0 && b != 0 { OrComm(a / 2, b / 2); }
  }

  /** DTLS1_BITMAP; `accepted` is every number recorded since the window was cleared. */
  class Bitmap {
    var map_: nat
    var maxSeqNum: nat
    ghost var accepted: set<nat>

    ghost predicate Valid()
      reads this
    {
      Represents(map_, maxSeqNum, accepted)
    }

    constructor ()
      ensures Valid() && accepted == {}
    {
      map_, maxSeqNum, accepted := 0, 0, {};
      new;
      Clear();
    }

    method Clear()
      modifies this
      ensures Valid() && accepted == {}
    {
      map_, maxSeqNum, accepted := 0, 0, {};
      forall k: nat ensures !Bit(0, k) { ZeroBit(k); }
    }

    /** dtls1_bitmap_should_discard */
    method ShouldDiscard(seqNum: seq<byte>) returns (discard: bool)
      requires Valid() && |seqNum| == 8
      ensures discard == Replayed(accepted, BigEndian(seqNum))
    {
      var u := ToU64Be(seqNum);
      if u > maxSeqNum {
        return false;
      }
      var idx := maxSeqNum - u;
      AndBit(map_, Pow2(idx), idx);
      PowerBit(idx, idx);
      AndZero(map_, idx);
      return idx >= WINDOW || And(map_, Pow2(idx)) != 0;
    }

    /** dtls1_bitmap_record */
    method Record(seqNum: seq<byte>)
      requires Valid() && |seqNum| == 8
      modifies this
      ensures Valid() && accepted == old(accepted) + {BigEndian(seqNum)}
    {
      hide ShiftLeft, Truncate, Bit, Or, Pow2;
      var u := ToU64Be(seqNum);
      ghost var map0, max0 := map_, maxSeqNum;
      if u > maxSeqNum {
        var shift := u - maxSeqNum;
        if shift >= WINDOW {
          map_ := 0;
        } else {
          map_ := Truncate(ShiftLeft(map_, shift), WINDOW);
        }
        maxSeqNum := u;
        forall k: nat ensures Bit(map_, k) <==> k < WINDOW && k <= u && u - k in accepted {
          ZeroBit(k);
          TruncateBit(ShiftLeft(map0, shift), WINDOW, k);
          ShiftLeftBit(map0, shift, k);
        }
      }
      var idx := maxSeqNum - u;
      ghost var map1 := map_;
      if idx < WINDOW {
        map_ := Or(map_, Pow2(idx));
      }
      accepted := accepted + {u};
      forall k: nat ensures Bit(map_, k) <==> k < WINDOW && k <= maxSeqNum && maxSeqNum - k in accepted {
        OrBit(map1, idx, k);
      }
    }
  }

  /** Testing one bit with a mask. */
  lemma AndZero(w: nat, k: nat)
    ensures And(w, Pow2(k)) == 0 <==> !Bit(w, k)
  {
    AndBit(w, Pow2(k), k);
    PowerBit(k, k);
    ZeroBit(k);
    if !Bit(w, k) {
      forall j: nat ensures Bit(And(w, Pow2(k)), j) == Bit(0, j) {
        AndBit(w, Pow2(k), j);
        PowerBit(k, j);
        ZeroBit(j);
      }
      BitsDetermine(And(w, Pow2(k)), 0);
    }
  }
}
