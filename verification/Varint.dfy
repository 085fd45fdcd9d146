/**
 * Base-128 varints: the 64-bit encoder and decoder, the 32-bit decoder with its
 * sign-extension rule, and zigzag (pb_encode.c, pb_decode.c).
 */
module Varint {
  import opened Bytes

  /** Least significant group first; every byte but the last has its top bit set. */
  function Encode(v: nat): (s: seq<byte>)
    ensures |s| > 0
  {
    if v < 128 then [v] else [v % 128 + 128] + Encode(v / 128)
  }

  /** How many leading bytes ask for another one. */
  function Span(s: seq<byte>): (k: nat)
    ensures k <= |s|
    ensures k < |s| ==> s[k] < 128
    ensures forall i :: 0 <= i < k ==> s[i] >= 128
  {
    if s == [] || s[0] < 128 then 0 else 1 + Span(s[1..])
  }

  /** The number spelled by the low seven bits of each byte. */
  function Groups(s: seq<byte>): nat
  {
    if s == [] then 0 else s[0] % 128 + 128 * Groups(s[1..])
  }

  /** pb_decode_varint: at most ten bytes, and the tenth contributes modulo 2^64. */
  function Decode64(s: seq<byte>): (p: Parsed<nat>)
    ensures p.Got? ==> p.value < 0x1_0000_0000_0000_0000 && |p.rest| < |s|
  {
    var k := Span(s);
    if k < |s| && k < 10 then Got(U64(Groups(s[..k + 1])), s[k + 1..]) else Fail
  }

  /** What pb_decode_varint leaves when it fails: it gives up after ten bytes or at the end. */
  function Abandoned(s: seq<byte>): seq<byte>
  {
    if |s| < 10 then [] else s[10..]
  }

  /** The do-while loop of pb_decode_varint32_eof, entered after a first byte with its top bit set.
    * `bitpos` is an 8-bit counter. */
  function Decode32From(s: seq<byte>, bitpos: nat, result: nat): Parsed<nat>
  {
    if s == [] then Fail
    else
      var b := s[0];
      var signExtension := if bitpos < 63 then 0xFF else 0x01;
      if bitpos >= 32 && b % 128 != 0 && (result < TWO_31 || b != signExtension) then Fail
      else
        var r := if bitpos >= 32 then result else Or(result, U32(b % 128 * Pow2(bitpos)));
        var p := (bitpos + 7) % 256;
        if b >= 128 then Decode32From(s[1..], p, r)
        else if p == 35 && b / 16 % 8 != 0 then Fail
        else Got(r, s[1..])
  }

  function Decode32(s: seq<byte>): Parsed<nat>
  {
    if s == [] then Fail
    else if s[0] < 128 then Got(s[0], s[1..])
    else Decode32From(s[1..], 7, s[0] % 128)
  }

  /** pb_encode_svarint: `~(v << 1)` or `v << 1` on 64-bit words. */
  function Zigzag(n: int): nat
    requires -TWO_63 <= n < TWO_63
  {
    if n < 0 then TWO_64 - 1 - U64(U64(n) * 2) else U64(n * 2)
  }

  /** Reinterpretation of an unsigned word of `modulus` values as two's complement. */
  function Signed(v: int, modulus: nat): (n: int)
    requires modulus > 0
    ensures modulus % 2 == 0 ==> -(modulus / 2) <= n < modulus / 2
  {
    var u := v % modulus;
    if u < (modulus + 1) / 2 then u else u - modulus
  }

  /** pb_decode_svarint: `~(v >> 1)` or `v >> 1`, read as a signed word. */
  function Unzigzag(v: nat): int
    requires v < TWO_64
  {
    if v % 2 == 1 then Signed(TWO_64 - 1 - v / 2, TWO_64) else Signed(v / 2, TWO_64)
  }

  // ---------------------------------------------------------------- laws

  /** The encoding is one terminated varint, so it can be read back in front of anything. */
  lemma {:induction false} EncodeShape(v: nat, x: seq<byte>)
    ensures Span(Encode(v) + x) == |Encode(v)| - 1
    ensures Groups(Encode(v)) == v
  {
    EncodeFront(v, x);
    if v >= 128 {
      EncodeShape(v / 128, x);
      ConsVarint(v % 128 + 128, Encode(v / 128), x);
    } else {
      assert [v][1..] == [];
    }
  }

  lemma ConsVarint(b: byte, t: seq<byte>, x: seq<byte>)
    requires b >= 128
    ensures Span([b] + (t + x)) == 1 + Span(t + x)
    ensures Groups([b] + t) == b % 128 + 128 * Groups(t)
  {
    assert ([b] + (t + x))[1..] == t + x;
    assert ([b] + t)[1..] == t;
  }

  /** Length k is used exactly for the values of 7k bits that do not fit 7(k-1) bits. */
  lemma {:induction false} EncodeMinimal(v: nat, k: nat)
    requires k >= 1
    ensures |Encode(v)| <= k <==> v < Pow2(7 * k)
  {
    Pow2Step7(7 * (k - 1));
    assert 7 * (k - 1) + 7 == 7 * k;
    if k == 1 {
      assert Pow2(0) == 1;
    } else if v >= 128 {
      EncodeMinimal(v / 128, k - 1);
      assert v / 128 < Pow2(7 * (k - 1)) <==> v < 128 * Pow2(7 * (k - 1));
    } else {
      assert Pow2(7 * (k - 1)) >= 1;
    }
  }

  lemma EncodeLength64(v: nat)
    requires v < 0x1_0000_0000_0000_0000
    ensures |Encode(v)| <= 10
  {
    Pow2Literals();
    EncodeMinimal(v, 10);
  }

  lemma Pow2Literals()
    ensures Pow2(7) == 128 && Pow2(14) == 0x4000 && Pow2(21) == 0x20_0000 && Pow2(28) == 0x1000_0000
    ensures Pow2(35) == 0x8_0000_0000 && Pow2(63) == TWO_63 && Pow2(70) == 64 * TWO_64
  {
    assert Pow2(0) == 1;
    Pow2Step7(0);
    Pow2Step7(7);
    Pow2Step7(14);
    Pow2Step7(21);
    Pow2Step7(28);
    Pow2Step7(35);
    Pow2Step7(42);
    Pow2Step7(49);
    Pow2Step7(56);
    Pow2Step7(63);
  }

  /** pb_decode_varint inverts pb_encode_varint on every 64-bit value, in one to ten bytes. */
  lemma RoundTrip64(v: nat, x: seq<byte>)
    requires v < 0x1_0000_0000_0000_0000
    ensures |Encode(v)| <= 10
    ensures Decode64(Encode(v) + x) == Got(v, x)
  {
    hide Encode, Span, Groups;
    EncodeLength64(v);
    EncodeShape(v, x);
    var e := Encode(v);
    assert (e + x)[..|e|] == e && (e + x)[|e|..] == x;
  }

  lemma ZigzagInverse(n: int)
    requires -TWO_63 <= n < TWO_63
    ensures Zigzag(n) == (if n < 0 then -2 * n - 1 else 2 * n) < TWO_64
    ensures Unzigzag(Zigzag(n)) == n
  {
    ZigzagValue(n);
    UnzigzagValue(n);
  }

  lemma ZigzagValue(n: int)
    requires -TWO_63 <= n < TWO_63
    ensures Zigzag(n) == (if n < 0 then -2 * n - 1 else 2 * n) < TWO_64
  {
    if n < 0 {
      assert U64(n) == n + 0x1_0000_0000_0000_0000;
      assert U64(U64(n) * 2) == 2 * n + 0x1_0000_0000_0000_0000;
    }
  }

  lemma UnzigzagValue(n: int)
    requires -TWO_63 <= n < TWO_63
    ensures Unzigzag(if n < 0 then -2 * n - 1 else 2 * n) == n
  {
    if n < 0 {
      assert (-2 * n - 1) / 2 == -n - 1;
    } else {
      assert 2 * n / 2 == n;
    }
  }

  // ---------------------------------------------------------------- the 32-bit decoder

  /** 128^k for the five groups a 32-bit value can occupy. */
  function Weight(k: nat): nat
    requires k <= 4
  {
    if k == 0 then 1 else if k == 1 then 0x80 else if k == 2 then 0x4000 else if k == 3 then 0x20_0000 else 0x1000_0000
  }

  lemma WeightIsPow2(k: nat)
    requires k <= 4
    ensures Pow2(7 * k) == Weight(k)
  {
    Pow2Literals();
    assert Pow2(0) == 1;
  }

  lemma GroupBounds(b: nat, k: nat, result: nat)
    requires k <= 4 && b < 128 && result < Weight(k)
    ensures k < 4 ==> result + b * Weight(k) < Weight(k + 1)
    ensures U32(b * Weight(k)) == (if k == 4 then b % 16 else b) * Weight(k)
    ensures result + (if k == 4 then b % 16 else b) * Weight(k) == U32(result + b * Weight(k))
  {
    if k == 4 {
      TopGroup(b, result);
    } else {
      LowGroup(b, k, result);
    }
  }

  lemma LowGroup(b: nat, k: nat, result: nat)
    requires k < 4 && b < 128 && result < Weight(k)
    ensures result + b * Weight(k) < Weight(k + 1) <= 0x1000_0000
    ensures U32(b * Weight(k)) == b * Weight(k) && U32(result + b * Weight(k)) == result + b * Weight(k)
  {
  }

  lemma TopGroup(b: nat, result: nat)
    requires b < 128 && result < 0x1000_0000
    ensures U32(b * 0x1000_0000) == b % 16 * 0x1000_0000
    ensures result + b % 16 * 0x1000_0000 == U32(result + b * 0x1000_0000)
  {
    assert b * 0x1000_0000 == b % 16 * 0x1000_0000 + b / 16 * 0x1_0000_0000;
  }

  /** `|=` of a group shifted to `bitpos` adds it, truncated to 32 bits. */
  lemma OrGroup(b: nat, k: nat, result: nat)
    requires k <= 4 && b < 128 && result < Weight(k)
    ensures Or(result, U32(b * Pow2(7 * k))) == U32(result + b * Weight(k))
  {
    WeightIsPow2(k);
    GroupBounds(b, k, result);
    OrDisjoint(result, if k == 4 then b % 16 else b, 7 * k);
  }

  /** The running total after group k of the 32-bit decoder. */
  function Accumulate(b: byte, k: nat, result: nat): nat
  {
    if k <= 4 then U32(result + b % 128 * Weight(k)) else result
  }

  predicate InRange32(k: nat, result: nat)
  {
    1 <= k <= 9 && result < TWO_32 && (k <= 4 ==> result < Weight(k))
  }

  /** The same loop counted in groups, with `+` for `|`: what the bit-level loop amounts to on
    * varints of at most ten bytes. */
  function Read32(s: seq<byte>, k: nat, result: nat): Parsed<nat>
    requires InRange32(k, result)
  {
    if s == [] then Fail
    else
      var b := s[0];
      if k >= 5 && b % 128 != 0 && (result < TWO_31 || b != if k < 9 then 0xFF else 1) then Fail
      else if b < 128 then
        if k == 4 && b >= 16 then Fail else Got(Accumulate(b, k, result), s[1..])
      else if k == 9 then Fail
      else
        InRangeNext(b, k, result);
        Read32(s[1..], k + 1, Accumulate(b, k, result))
  }

  lemma InRangeNext(b: byte, k: nat, result: nat)
    requires InRange32(k, result) && k < 9
    ensures InRange32(k + 1, Accumulate(b, k, result))
  {
    if k <= 4 { GroupBounds(b % 128, k, result); }
  }

  lemma {:induction false} Read32Refines(s: seq<byte>, k: nat, result: nat)
    requires InRange32(k, result) && k + Span(s) <= 9 && Span(s) < |s|
    ensures Decode32From(s, 7 * k, result) == Read32(s, k, result)
  {
    Turn32(s, k, result);
    hide Decode32From, U32, Weight;
    if s[0] >= 128 {
      InRangeNext(s[0], k, result);
      Read32Refines(s[1..], k + 1, Accumulate(s[0], k, result));
    }
  }

  /** One turn of the bit-level loop. */
  lemma Turn32(s: seq<byte>, k: nat, result: nat)
    requires InRange32(k, result) && s != []
    ensures var b := s[0];
            Decode32From(s, 7 * k, result) ==
            if k >= 5 && b % 128 != 0 && (result < TWO_31 || b != if k < 9 then 0xFF else 1) then Fail
            else if b >= 128 then Decode32From(s[1..], 7 * k + 7, Accumulate(b, k, result))
            else if k == 4 && b >= 16 then Fail
            else Got(Accumulate(b, k, result), s[1..])
  {
    hide Or, Pow2, U32, Weight, Accumulate;
    AccumulateIsOr(s[0], k, result);
  }

  lemma AccumulateIsOr(b: byte, k: nat, result: nat)
    requires InRange32(k, result)
    ensures Accumulate(b, k, result) == if 7 * k >= 32 then result else Or(result, U32(b % 128 * Pow2(7 * k)))
  {
    if k <= 4 { OrGroup(b % 128, k, result); }
  }

  /** The terminated varint at the front of s, and its value. */
  function Front(s: seq<byte>): seq<byte>
    requires Span(s) < |s|
  {
    s[..Span(s) + 1]
  }

  lemma FrontSplit(s: seq<byte>)
    requires Span(s) < |s|
    ensures s[0] < 128 ==> Groups(Front(s)) == s[0] && s[1..] == s[Span(s) + 1..]
    ensures s[0] >= 128 ==>
              && Span(s[1..]) < |s[1..]|
              && Groups(Front(s)) == s[0] % 128 + 128 * Groups(Front(s[1..]))
              && s[1..][Span(s[1..]) + 1..] == s[Span(s) + 1..]
  {
    var body := Front(s);
    if s[0] < 128 {
      assert body == [s[0]] && body[1..] == [];
      assert Groups(body[1..]) == 0;
    } else {
      assert body[1..] == Front(s[1..]);
    }
  }

  /** Where the loop accepts, it took the whole varint and kept its value modulo 2^32. */
  lemma {:induction false} Read32Value(s: seq<byte>, k: nat, result: nat)
    requires InRange32(k, result) && k + Span(s) <= 9 && Span(s) < |s|
    ensures var d := Read32(s, k, result);
            d.Got? ==> d.rest == s[Span(s) + 1..] && d.value == Total32(result, Groups(Front(s)), k)
  {
    hide Front, Groups;
    var b := s[0];
    FrontSplit(s);
    if b >= 128 {
      InRangeNext(b, k, result);
      Read32Value(s[1..], k + 1, Accumulate(b, k, result));
      SumOfGroups(result, b, Groups(Front(s[1..])), k);
    }
  }

  function Total32(result: nat, g: nat, k: nat): nat
  {
    if k <= 4 then U32(result + g * Weight(k)) else result
  }

  /** One more group folded into the running total, modulo 2^32. */
  lemma SumOfGroups(result: nat, b: byte, g: nat, k: nat)
    requires InRange32(k, result) && k < 9
    ensures Total32(Accumulate(b, k, result), g, k + 1) == Total32(result, b % 128 + 128 * g, k)
  {
    if k < 4 {
      GroupBounds(b % 128, k, result);
    } else if k == 4 {
      ModMultiple(result + b % 128 * Weight(k), 8 * g);
    }
  }

  lemma ModMultiple(a: nat, m: nat)
    ensures U32(a + 0x1_0000_0000 * m) == U32(a)
  {
  }

  lemma DecodersAgree(s: seq<byte>)
    ensures Decode64(s).Got? && Decode32(s).Got? ==>
              && Decode32(s).rest == Decode64(s).rest
              && Decode32(s).value == U32(Decode64(s).value)
  {
    if Decode64(s).Got? && Decode32(s).Got? {
      FrontSplit(s);
      NarrowWord(Groups(Front(s)));
      if s[0] >= 128 {
        hide Decode32From, Groups, Front;
        AgreeTail(s[0], s[1..]);
      }
    }
  }

  lemma AgreeTail(b: byte, t: seq<byte>)
    requires Span(t) < |t| && Span(t) < 9
    ensures var d := Decode32From(t, 7, b % 128);
            d.Got? ==> d.rest == t[Span(t) + 1..] && d.value == U32(b % 128 + 128 * Groups(Front(t)))
  {
    hide *;
    InRangeStart(b);
    Read32Refines(t, 1, b % 128);
    Read32Value(t, 1, b % 128);
    TotalOne(b % 128, Groups(Front(t)));
  }

  lemma InRangeStart(b: byte)
    ensures InRange32(1, b % 128)
  {
  }

  lemma TotalOne(result: nat, g: nat)
    ensures Total32(result, g, 1) == U32(result + 128 * g)
  {
  }

  lemma NarrowWord(g: nat)
    ensures U32(U64(g)) == U32(g)
  {
  }

  /** Bits 35 to 63 of a ten-byte varint as the 32-bit decoder checks them: every group
    * all zeros or all ones, and the last byte one. */
  predicate SignGroups(w: nat, k: nat)
    decreases 9 - k
  {
    if k >= 9 then w == 1 else w % 128 in {0, 127} && SignGroups(w / 128, k + 1)
  }

  /** What is left of a 64-bit value above bit 7k. */
  function Room(k: nat): nat
  {
    if k <= 5 then 0x2000_0000 else if k == 6 then 0x40_0000 else if k == 7 then 0x8000 else if k == 8 then 0x100 else 2
  }

  lemma RoomStep(w: nat, k: nat)
    requires 5 <= k < 9 && w < Room(k)
    ensures w / 128 < Room(k + 1)
  {
  }

  /** Past bit 35 the minimal encoding of w is accepted exactly as sign extension. */
  lemma {:induction false} AcceptTail(w: nat, k: nat, result: nat, x: seq<byte>)
    requires 5 <= k <= 9 && 0 < w < Room(k) && result < TWO_32
    ensures Read32(Encode(w) + x, k, result) ==
            if result >= TWO_31 && SignGroups(w, k) then Got(result, x) else Fail
    decreases 9 - k
  {
    EncodeFront(w, x);
    if w < 128 {
      assert ([w] + x)[1..] == x;
      ZeroIsNotSign(k + 1);
    } else {
      Read32Sign(w % 128 + 128, Encode(w / 128) + x, k, result);
      RoomStep(w, k);
      AcceptTail(w / 128, k + 1, result, x);
    }
  }

  lemma Read32Sign(b: byte, s: seq<byte>, k: nat, result: nat)
    requires InRange32(k, result) && 5 <= k < 9 && b >= 128
    ensures Read32([b] + s, k, result) ==
            if b == 128 || (result >= TWO_31 && b == 255) then Read32(s, k + 1, result) else Fail
  {
    assert ([b] + s)[1..] == s;
  }

  lemma {:induction false} ZeroIsNotSign(k: nat)
    ensures !SignGroups(0, k)
    decreases 9 - k
  {
    if k < 9 { ZeroIsNotSign(k + 1); }
  }

  /** Bits 0 to 34: groups accumulate, and a fifth and last byte must fit four bits. */
  lemma {:induction false} AcceptHead(w: nat, k: nat, result: nat, v: nat, x: seq<byte>)
    requires 1 <= k <= 4 && 0 < w && result < Weight(k)
    requires v == result + w * Weight(k) < 0x1_0000_0000_0000_0000
    ensures Read32(Encode(w) + x, k, result) == Verdict32(v, x)
    decreases 4 - k
  {
    hide *;
    EncodeFront(w, x);
    if w < 128 {
      AcceptEnd(w, k, result, v, x);
    } else {
      var b: byte := w % 128 + 128;
      var r := AcceptStep(w, k, result, v);
      Read32Turn(b, Encode(w / 128) + x, k, result);
      if k < 4 {
        AcceptHead(w / 128, k + 1, r, v, x);
      } else {
        AcceptLast(w, result, r, v, x);
      }
    }
  }

  lemma EncodeFront(w: nat, x: seq<byte>)
    ensures Encode(w) + x == if w < 128 then [w] + x else [w % 128 + 128] + (Encode(w / 128) + x)
  {
  }

  lemma Read32Turn(b: byte, s: seq<byte>, k: nat, result: nat)
    requires InRange32(k, result) && 1 <= k <= 4 && b >= 128
    ensures InRange32(k + 1, Accumulate(b, k, result))
    ensures Read32([b] + s, k, result) == Read32(s, k + 1, Accumulate(b, k, result))
  {
    InRangeNext(b, k, result);
    assert ([b] + s)[1..] == s;
  }

  lemma AcceptLast(w: nat, result: nat, r: nat, v: nat, x: seq<byte>)
    requires w >= 128 && result < Weight(4) && v == result + w * Weight(4) < 0x1_0000_0000_0000_0000
    requires r == U32(result + w % 128 * Weight(4))
    ensures Read32(Encode(w / 128) + x, 5, r) == Verdict32(v, x)
  {
    hide Read32, Encode, SignGroups;
    AcceptLastStep(w, result);
    AcceptTail(w / 128, 5, r, x);
  }

  lemma AcceptEnd(w: nat, k: nat, result: nat, v: nat, x: seq<byte>)
    requires 1 <= k <= 4 && w < 128 && result < Weight(k) && v == result + w * Weight(k)
    ensures Read32([w] + x, k, result) == Verdict32(v, x)
  {
    hide SignGroups;
    if k == 4 {
      AcceptEndTop(w, result, v, x);
    } else {
      assert ([w] + x)[1..] == x;
      GroupBounds(w, k, result);
    }
  }

  lemma AcceptEndTop(w: nat, result: nat, v: nat, x: seq<byte>)
    requires w < 128 && result < Weight(4) && v == result + w * Weight(4)
    ensures Read32([w] + x, 4, result) == Verdict32(v, x)
  {
    hide SignGroups;
    assert ([w] + x)[1..] == x;
    GroupBounds(w, 4, result);
    assert v < 0x8_0000_0000;
    ZeroIsNotSign(5);
  }

  lemma AcceptStep(w: nat, k: nat, result: nat, v: nat) returns (r: nat)
    requires 1 <= k <= 4 && w >= 128 && result < Weight(k) && v == result + w * Weight(k)
    ensures r == U32(result + w % 128 * Weight(k)) == Accumulate(w % 128 + 128, k, result)
    ensures InRange32(k, result) && InRange32(k + 1, r)
    ensures k < 4 ==> r < Weight(k + 1) && v == r + w / 128 * Weight(k + 1)
  {
    InRangeNext(w % 128 + 128, k, result);
    r := U32(result + w % 128 * Weight(k));
    SplitProduct(w, Weight(k));
    SmallStep(w, k, result);
  }

  lemma SmallStep(w: nat, k: nat, result: nat)
    requires 1 <= k <= 4 && result < Weight(k)
    ensures k < 4 ==> U32(result + w % 128 * Weight(k)) == result + w % 128 * Weight(k) < Weight(k + 1) == 128 * Weight(k)
    ensures Weight(k) <= 0x1000_0000
  {
  }

  lemma SplitProduct(w: nat, m: nat)
    ensures w * m == w % 128 * m + w / 128 * (128 * m)
  {
    assert w == w % 128 + w / 128 * 128;
  }

  lemma AcceptLastStep(w: nat, result: nat)
    requires w >= 128 && result < 0x1000_0000 && result + w * 0x1000_0000 < TWO_64
    ensures var v := result + w * 0x1000_0000;
            var r := U32(result + w % 128 * 0x1000_0000);
            && v / 0x8_0000_0000 == w / 128 < 0x2000_0000
            && v >= TWO_32
            && r == U32(v)
            && (r >= TWO_31 <==> v / 0x8000_0000 % 2 == 1)
  {
    var q := w / 128;
    var r0 := result + w % 128 * 0x1000_0000;
    assert result + w * 0x1000_0000 == r0 + q * 0x8_0000_0000;
    TopBits(r0, q);
  }

  lemma TopBits(r0: nat, q: nat)
    requires r0 < 0x8_0000_0000
    ensures var v := r0 + q * 0x8_0000_0000;
            && v / 0x8_0000_0000 == q
            && v / 0x8000_0000 % 2 == r0 / 0x8000_0000 % 2
            && U32(v) == U32(r0)
    ensures U32(r0) >= 0x8000_0000 <==> r0 / 0x8000_0000 % 2 == 1
  {
    ModMultiple(r0, q * 8);
    Bit31OfSum(r0, q);
    Bit31OfWord(r0);
  }

  lemma Bit31OfSum(r0: nat, q: nat)
    ensures (r0 + q * 0x8_0000_0000) / 0x8000_0000 % 2 == r0 / 0x8000_0000 % 2
  {
    assert (r0 + q * 0x8_0000_0000) / 0x8000_0000 == r0 / 0x8000_0000 + q * 16;
  }

  lemma Bit31OfWord(r: nat)
    ensures U32(r) >= 0x8000_0000 <==> r / 0x8000_0000 % 2 == 1
  {
    assert r / 0x8000_0000 == r / 0x1_0000_0000 * 2 + U32(r) / 0x8000_0000;
  }

  /** Exactly which 64-bit values pb_decode_varint32 accepts in minimal encoding, and what it returns. */
  function Verdict32(v: nat, x: seq<byte>): Parsed<nat>
  {
    if v < TWO_32 || (v / 0x8000_0000 % 2 == 1 && SignGroups(v / 0x8_0000_0000, 5)) then Got(U32(v), x) else Fail
  }

  lemma Accept32(v: nat, x: seq<byte>)
    requires v < TWO_64
    ensures Decode32(Encode(v) + x) == Verdict32(v, x)
  {
    hide *;
    EncodeFront(v, x);
    if v < 128 {
      VerdictSmall(v, x);
      Decode32Front(v, x);
    } else {
      AcceptMultibyte(v, x);
      Decode32Front(v % 128 + 128, Encode(v / 128) + x);
    }
  }

  lemma Decode32Front(b: byte, t: seq<byte>)
    ensures Decode32([b] + t) == if b < 128 then Got(b, t) else Decode32From(t, 7, b % 128)
  {
    assert ([b] + t)[1..] == t;
  }

  lemma AcceptMultibyte(v: nat, x: seq<byte>)
    requires 128 <= v < TWO_64
    ensures Decode32From(Encode(v / 128) + x, 7, v % 128) == Verdict32(v, x)
  {
    EncodeShape(v / 128, x);
    EncodeLength64(v);
    AcceptHead(v / 128, 1, v % 128, v, x);
    Read32Refines(Encode(v / 128) + x, 1, v % 128);
  }

  lemma RoundTrip32(v: nat, x: seq<byte>)
    requires v < 0x1_0000_0000
    ensures Decode32(Encode(v) + x) == Got(v, x)
  {
    hide Decode32, Encode, Verdict32;
    Accept32(v, x);
    VerdictSmall(v, x);
  }

  lemma VerdictSmall(v: nat, x: seq<byte>)
    requires v < 0x1_0000_0000
    ensures Verdict32(v, x) == Got(v, x)
  {
  }

  lemma SignGroupsExamples()
    ensures SignGroups(0x1FFF_FFFF, 5) && SignGroups(0x1000_0000, 5)
  {
    assert SignGroups(1, 9);
    assert SignGroups(0xFF, 8) && SignGroups(0x80, 8);
    assert SignGroups(0x7FFF, 7) && SignGroups(0x4000, 7);
    assert SignGroups(0x3F_FFFF, 6) && SignGroups(0x20_0000, 6);
  }

  /** A negative int32, encoded as the 64-bit word it is sign-extended to, is read back. */
  lemma NegativeInt32(n: int, x: seq<byte>)
    requires -0x8000_0000 <= n < 0
    ensures Decode32(Encode(n + 0x1_0000_0000_0000_0000) + x) == Got(n + 0x1_0000_0000, x)
  {
    hide Decode32, Encode, SignGroups;
    var v := n + 0x1_0000_0000_0000_0000;
    assert v / 0x8000_0000 == 0x1_FFFF_FFFF;
    assert v / 0x8_0000_0000 == 0x1FFF_FFFF;
    assert U32(v) == n + 0x1_0000_0000;
    SignGroupsExamples();
    Accept32(v, x);
  }

  /** The overflow check has a gap: 2^63 + 2^31 is neither below 2^32 nor a sign-extended
    * int32, yet it is accepted. */
  lemma AcceptsMoreThanInt32()
    ensures var v := 0x8000_0000_8000_0000;
            TWO_32 <= v < TWO_64 - TWO_31 && Decode32(Encode(v)) == Got(0x8000_0000, [])
  {
    hide Decode32, Encode, SignGroups;
    var v := 0x8000_0000_8000_0000;
    assert v / 0x8_0000_0000 == 0x1000_0000 && v / 0x8000_0000 == 0x1_0000_0001 && U32(v) == 0x8000_0000;
    SignGroupsExamples();
    Accept32(v, []);
    assert Encode(v) + [] == Encode(v);
  }
}
