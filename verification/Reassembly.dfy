/**
 * Reassembly of one handshake message from overlapping fragments (hm_fragment,
 * dtls1_hm_fragment_new, bit_range and dtls1_hm_fragment_mark in d1_both.cc): a bit mask over the
 * message's bytes that behaves as the set of bytes received.
 */
module Reassembly {
  import opened Bytes
  import opened Bits
  import opened Cbs
  import opened Fragments

  // ---------------------------------------------------------------- bits of a byte

  /** bit_range */
  function BitRange(start: nat, end: nat): nat
  {
    Truncate(And(Not(Pow2(start) - 1, 32), Pow2(end) - 1), 8)
  }

  /** Exactly the bits from start up to end are set. */
  lemma BitRangeBit(start: nat, end: nat, k: nat)
    requires end <= 8
    ensures Bit(BitRange(start, end), k) == (start <= k < end)
  {
    hide Truncate, And, Not, Pow2, Bit;
    TruncateBit(And(Not(Pow2(start) - 1, 32), Pow2(end) - 1), 8, k);
    AndBit(Not(Pow2(start) - 1, 32), Pow2(end) - 1, k);
    NotBit(Pow2(start) - 1, 32, k);
    OnesBit(start, k);
    OnesBit(end, k);
  }

  lemma BitRangeByte(start: nat, end: nat)
    requires end <= 8
    ensures BitRange(start, end) < 256
  {
    hide BitRange, Bit;
    forall k: nat | 8 <= k ensures !Bit(BitRange(start, end), k) { BitRangeBit(start, end, k); }
    NoHighBits(BitRange(start, end), 8);
    assert Pow2(8) == 256 by { Widths(); }
  }

  lemma ByteBits(b: byte, k: nat)
    requires Bit(b, k)
    ensures k < 8
  {
    hide Bit;
    BitBound(b, 8, k);
    assert Pow2(8) == 256 by { Widths(); }
  }

  lemma {:induction false} BitBound(w: nat, n: nat, k: nat)
    requires w < Pow2(n) && Bit(w, k)
    ensures k < n
  {
    if n == 0 {
      ZeroBit(k);
    } else if k > 0 {
      BitBound(w / 2, n - 1, k - 1);
    }
  }

  lemma OrByte(a: byte, b: nat)
    requires b < 256
    ensures Or(a, b) < 256
  {
    hide Bit, Or;
    forall k: nat | 8 <= k ensures !Bit(Or(a, b), k) {
      OrBits(a, b, k);
      if Bit(a, k) { ByteBits(a, k); }
      if Bit(b, k) { ByteBits(b, k); }
    }
    NoHighBits(Or(a, b), 8);
    assert Pow2(8) == 256 by { Widths(); }
  }

  /** The first n bits are set. */
  predicate LowBits(b: nat, n: nat)
  {
    forall k: nat :: k < n ==> Bit(b, k)
  }

  /** A byte whose bits from n on are clear equals bit_range(0, n) exactly when the first n are set. */
  lemma LowBitsFull(b: byte, n: nat)
    requires n <= 8 && forall k: nat :: n <= k < 8 ==> !Bit(b, k)
    ensures b == BitRange(0, n) <==> LowBits(b, n)
  {
    hide BitRange;
    if b == BitRange(0, n) {
      forall k: nat | k < n ensures Bit(b, k) { BitRangeBit(0, n, k); }
    } else if LowBits(b, n) {
      forall k: nat ensures Bit(b, k) == Bit(BitRange(0, n), k) {
        BitRangeBit(0, n, k);
        if Bit(b, k) { ByteBits(b, k); }
      }
      BitsDetermine(b, BitRange(0, n));
    }
  }

  lemma FullByte()
    ensures BitRange(0, 8) == 0xFF
  {
    hide Bit, BitRange;
    assert Pow2(8) == 256 by { Widths(); }
    forall k: nat ensures Bit(BitRange(0, 8), k) == Bit(0xFF, k) {
      BitRangeBit(0, 8, k);
      OnesBit(8, k);
    }
    BitsDetermine(BitRange(0, 8), 0xFF);
  }

  // ---------------------------------------------------------------- the bit mask

  predicate BitAt(bits: seq<byte>, p: nat)
    requires p < 8 * |bits|
  {
    Bit(bits[p / 8], p % 8)
  }

  /** `bits[i] |= bit_range(start, end)` */
  method OrRange(bits: array<byte>, i: nat, start: nat, end: nat)
    requires i < bits.Length && start <= end <= 8
    modifies bits
    ensures forall p: nat :: p < 8 * bits.Length ==>
              BitAt(bits[..], p) == (old(BitAt(bits[..], p)) || 8 * i + start <= p < 8 * i + end)
  {
    hide Bit, Or, BitRange;
    ghost var was := bits[..];
    BitRangeByte(start, end);
    OrByte(bits[i], BitRange(start, end));
    bits[i] := Or(bits[i], BitRange(start, end));
    forall p: nat | p < 8 * bits.Length
      ensures BitAt(bits[..], p) == (BitAt(was, p) || 8 * i + start <= p < 8 * i + end)
    {
      if p / 8 == i {
        OrBits(was[i], BitRange(start, end), p % 8);
        BitRangeBit(start, end, p % 8);
      }
    }
  }

  /** The marking part of dtls1_hm_fragment_mark. */
  method MarkBits(bits: array<byte>, start: nat, end: nat)
    requires start < end <= 8 * bits.Length
    modifies bits
    ensures forall p: nat :: p < 8 * bits.Length ==>
              BitAt(bits[..], p) == (old(BitAt(bits[..], p)) || start <= p < end)
  {
    hide Bit;
    ghost var was := bits[..];
    if start / 8 == end / 8 {
      OrRange(bits, start / 8, start % 8, end % 8);
    } else {
      OrRange(bits, start / 8, start % 8, 8);
      var i := start / 8 + 1;
      while i < end / 8
        invariant start / 8 < i <= end / 8
        invariant forall p: nat :: p < 8 * bits.Length ==> BitAt(bits[..], p) == (BitAt(was, p) || start <= p < 8 * i)
      {
        ghost var before := bits[..];
        bits[i] := 0xFF;
        forall p: nat | p < 8 * bits.Length
          ensures BitAt(bits[..], p) == (BitAt(was, p) || start <= p < 8 * (i + 1))
        {
          if p / 8 == i {
            FullByte();
            BitRangeBit(0, 8, p % 8);
          } else {
            assert BitAt(bits[..], p) == BitAt(before, p);
          }
        }
        i := i + 1;
      }
      if end % 8 != 0 {
        OrRange(bits, end / 8, 0, end % 8);
      }
    }
  }

  /** The completeness test of dtls1_hm_fragment_mark. */
  method AllMarked(bits: array<byte>, msgLen: nat) returns (full: bool)
    requires msgLen <= 8 * bits.Length < msgLen + 8
    requires forall p: nat :: msgLen <= p < 8 * bits.Length ==> !BitAt(bits[..], p)
    ensures full <==> forall p: nat :: p < msgLen ==> BitAt(bits[..], p)
  {
    hide BitAt, BitRange;
    FullByte();
    var i := 0;
    while i < msgLen / 8
      invariant i <= msgLen / 8
      invariant forall p: nat :: p < 8 * i ==> BitAt(bits[..], p)
    {
      ByteMarked(bits[..], i, 8);
      if bits[i] != 0xFF {
        return false;
      }
      i := i + 1;
    }
    if msgLen % 8 != 0 {
      ByteMarked(bits[..], i, msgLen % 8);
      if bits[i] != BitRange(0, msgLen % 8) {
        return false;
      }
    }
    return true;
  }

  /** A byte with nothing past its first n bits equals their mask exactly when all of them are set. */
  lemma ByteMarked(bits: seq<byte>, i: nat, n: nat)
    requires i < |bits| && n <= 8 && forall p: nat :: 8 * i + n <= p < 8 * i + 8 ==> !BitAt(bits, p)
    ensures bits[i] == BitRange(0, n) <==> forall p: nat :: 8 * i <= p < 8 * i + n ==> BitAt(bits, p)
  {
    hide Bit, BitRange;
    forall k: nat | k < 8 ensures BitAt(bits, 8 * i + k) == Bit(bits[i], k) { }
    LowBitsFull(bits[i], n);
    if forall p: nat :: 8 * i <= p < 8 * i + n ==> BitAt(bits, p) {
      forall k: nat | k < n ensures Bit(bits[i], k) { assert BitAt(bits, 8 * i + k); }
    }
    if bits[i] == BitRange(0, n) {
      forall p: nat | 8 * i <= p < 8 * i + n ensures BitAt(bits, p) { assert Bit(bits[i], p - 8 * i); }
    }
  }

  // ---------------------------------------------------------------- one incoming message

  lemma BodyOf(was: seq<byte>, off: nat, body: seq<byte>)
    requires HM_HEADER_LENGTH + off + |body| <= |was|
    ensures var at := HM_HEADER_LENGTH + off;
            (was[..at] + body + was[at + |body|..])[HM_HEADER_LENGTH..] ==
            was[HM_HEADER_LENGTH..][..off] + body + was[HM_HEADER_LENGTH..][off + |body|..]
  {
  }

  /** A partly received message: its bytes, which of them have arrived, and in which epochs. */
  datatype Partial = Partial(kind: nat, seq_: nat, body: seq<byte>, have: seq<bool>, epochs: set<nat>)

  predicate Complete(p: Partial)
  {
    forall i :: 0 <= i < |p.have| ==> p.have[i]
  }

  /** The message after bytes `data` have arrived for position `off`. */
  function Fill(p: Partial, off: nat, data: seq<byte>, epoch: nat): (q: Partial)
    requires off + |data| <= |p.body| == |p.have|
    ensures |q.body| == |q.have| == |p.body|
  {
    Partial(p.kind, p.seq_, p.body[..off] + data + p.body[off + |data|..],
            seq(|p.have|, i requires 0 <= i < |p.have| => p.have[i] || off <= i < off + |data|),
            p.epochs + {epoch})
  }

  /** hm_fragment. `epochs` are the read epochs in which parts of it arrived. */
  class HmFragment {
    const kind: nat
    const seq_: nat
    const msgLen: nat
    const data: array<byte>
    var reassembly: array?<byte>
    ghost var epochs: set<nat>

    ghost function Repr(): set<object>
      reads this
    {
      {this, data} + if reassembly == null then {} else {reassembly}
    }

    /** While reassembly is pending some byte is missing, and the mask has no bits past the message. */
    ghost predicate Valid()
      reads this, data, reassembly
    {
      && kind < 0x100 && seq_ < 0x1_0000 && msgLen < 0x100_0000
      && data.Length == HM_HEADER_LENGTH + msgLen
      && data[..HM_HEADER_LENGTH] == ToBigEndian(kind, 1) + ToBigEndian(msgLen, 3) + ToBigEndian(seq_, 2)
                                     + ToBigEndian(0, 3) + ToBigEndian(msgLen, 3)
      && (reassembly != null ==>
            && reassembly != data
            && msgLen <= 8 * reassembly.Length < msgLen + 8
            && (forall p: nat :: msgLen <= p < 8 * reassembly.Length ==> !BitAt(reassembly[..], p))
            && exists p: nat :: p < msgLen && !BitAt(reassembly[..], p))
    }

    /** Byte i has been received. */
    ghost predicate Have(i: nat)
      requires Valid() && i < msgLen
      reads this, data, reassembly
    {
      reassembly == null || BitAt(reassembly[..], i)
    }

    ghost function Abs(): (p: Partial)
      requires Valid()
      reads this, data, reassembly
      ensures p.kind == kind && p.seq_ == seq_ && |p.have| == |p.body| == msgLen && p.epochs == epochs
    {
      Partial(kind, seq_, data[HM_HEADER_LENGTH..],
              seq(msgLen, i requires Valid() && 0 <= i < msgLen reads this, data, reassembly => Have(i)),
              epochs)
    }

    /** The mask is gone exactly when every byte has been received. */
    lemma CompleteWhenUnmasked()
      requires Valid()
      ensures Complete(Abs()) <==> reassembly == null
    {
      if reassembly != null {
        var p: nat :| p < msgLen && !BitAt(reassembly[..], p);
        assert !Abs().have[p];
      }
    }

    /** dtls1_hm_fragment_new: nothing received yet, which completes an empty message. */
    constructor (kind: nat, seq_: nat, msgLen: nat, ghost epoch: nat)
      requires kind < 0x100 && seq_ < 0x1_0000 && msgLen < 0x100_0000
      ensures Valid() && fresh(Repr())
      ensures Abs() == Partial(kind, seq_, seq(msgLen, i => 0), seq(msgLen, i => false), {epoch})
    {
      hide ToBigEndian, Bit;
      var header := ToBigEndian(kind, 1) + ToBigEndian(msgLen, 3) + ToBigEndian(seq_, 2)
                    + ToBigEndian(0, 3) + ToBigEndian(msgLen, 3);
      this.kind, this.seq_, this.msgLen, epochs := kind, seq_, msgLen, {epoch};
      data := new byte[HM_HEADER_LENGTH + msgLen](i => if 0 <= i < |header| then header[i] else 0);
      reassembly := null;
      new;
      assert data[..HM_HEADER_LENGTH] == header;
      if msgLen > 0 {
        reassembly := new byte[(msgLen + 7) / 8](i => 0);
        forall p: nat | p < 8 * reassembly.Length ensures !BitAt(reassembly[..], p) { ZeroBit(p % 8); }
        assert !BitAt(reassembly[..], 0);
      }
      assert Abs().body == seq(msgLen, i => 0);
      assert Abs().have == seq(msgLen, i => false);
    }

    /** The message body, for the caller of dtls1_get_message. */
    method Body() returns (body: seq<byte>)
      requires Valid()
      ensures body == Abs().body
    {
      return data[HM_HEADER_LENGTH..];
    }

    /** dtls1_hm_fragment_mark: the mask gains the range; a complete message drops its mask. */
    method Mark(start: nat, end: nat)
      requires Valid() && reassembly != null && start <= end <= msgLen
      modifies this`reassembly, reassembly
      ensures Valid() && (reassembly == null || reassembly == old(reassembly))
      ensures forall i: nat :: i < msgLen ==> Have(i) == (old(Have(i)) || start <= i < end)
      ensures data[..] == old(data[..])
    {
      hide BitAt, ToBigEndian;
      if start == end {
        return;
      }
      MarkBits(reassembly, start, end);
      var full := AllMarked(reassembly, msgLen);
      if full {
        reassembly := null;
      }
    }

    /** The copy into the message and the marking in dtls1_open_handshake. */
    method Store(off: nat, body: seq<byte>, ghost epoch: nat)
      requires Valid() && reassembly != null && off + |body| <= msgLen
      modifies this, data, reassembly
      ensures Valid() && Repr() <= old(Repr())
      ensures Abs() == Fill(old(Abs()), off, body, epoch)
    {
      hide Bit, ToBigEndian, BitAt;
      ghost var was, have := data[..], Abs().have;
      CopyBody(off, body);
      Mark(off, off + |body|);
      epochs := epochs + {epoch};
      BodyOf(was, off, body);
    }

    /** The copy into the message body. */
    method CopyBody(off: nat, body: seq<byte>)
      requires Valid() && off + |body| <= msgLen
      modifies data
      ensures Valid() && (reassembly != null ==> reassembly[..] == old(reassembly[..]))
      ensures var at := HM_HEADER_LENGTH + off;
              data[..] == old(data[..])[..at] + body + old(data[..])[at + |body|..]
    {
      hide BitAt, ToBigEndian;
      ghost var was := data[..];
      CopyInto(data, HM_HEADER_LENGTH + off, body);
      assert data[..HM_HEADER_LENGTH] == was[..HM_HEADER_LENGTH];
    }
  }

  /** OPENSSL_memcpy */
  method CopyInto(data: array<byte>, at: nat, body: seq<byte>)
    requires at + |body| <= data.Length
    modifies data
    ensures data[..] == old(data[..])[..at] + body + old(data[..])[at + |body|..]
  {
    ghost var was := data[..];
    var i := 0;
    while i < |body|
      invariant i <= |body|
      invariant data[..] == was[..at] + body[..i] + was[at + i..]
    {
      data[at + i] := body[i];
      i := i + 1;
    }
  }
}
