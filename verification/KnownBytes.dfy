/**
 * Encodings known from the protocol buffers wire format: a message for each field type and rule, byte
 * by byte.
 */
module KnownBytes {
  import opened Bytes
  import opened Varint
  import opened Schema
  import opened Wire

  /** A descriptor without a default value. */
  function Member(tag: nat, rule: Rule, ltype: LType, size: nat): Field
  {
    Field(tag, rule, ltype, size, Num(0), 0, 0)
  }

  /** A message with one field: the key, and behind it the payload. */
  lemma OneField(f: Field, s: Slot, key: byte, e: seq<byte>)
    requires key < 128 && EncodeSlot(f, s) == Some(Encode(key) + e)
    ensures EncodeMessage([f], [s]) == Some([key] + e)
  {
    hide EncodeSlot;
    assert Encode(key) == [key];
    NoMore(f, s);
  }

  lemma NoMore(f: Field, s: Slot)
    ensures EncodeMessage([f], [s]) == EncodeSlot(f, s)
  {
    hide EncodeSlot;
    assert [f][1..] == [] && [s][1..] == [];
    if EncodeSlot(f, s).Some? {
      assert EncodeSlot(f, s).value + [] == EncodeSlot(f, s).value;
    }
  }

  lemma Bytes1(v: nat)
    requires v < 128
    ensures Encode(v) == [v]
  {
  }

  lemma Bytes2(v: nat, a: byte, b: byte)
    requires 128 <= a && b < 128 && v == a - 128 + 128 * b && b > 0
    ensures Encode(v) == [a, b]
  {
    Bytes1(b);
    hide Encode;
    More(v);
  }

  lemma More(v: nat)
    requires v >= 128
    ensures Encode(v) == [v % 128 + 128] + Encode(v / 128)
  {
  }

  /** The number 150 in field 1. */
  lemma Unsigned()
    ensures EncodeMessage([Member(1, Required, UVarintT, 4)], [Plain(Num(150))]) == Some([0x08, 0x96, 0x01])
  {
    hide Encode;
    Bytes2(150, 0x96, 0x01);
    var e: seq<byte> := [0x96, 0x01];
    OneField(Member(1, Required, UVarintT, 4), Plain(Num(150)), 0x08, e);
    assert [0x08] + e == [0x08, 0x96, 0x01];
  }

  /** A negative int32 takes ten bytes. */
  lemma Negative()
    ensures EncodeMessage([Member(1, Optional, VarintT, 4)], [Flagged(true, Num(-1))]) ==
            Some([0x08, 0xFF, 0xFF, 0xFF, 0xFF, 0xFF, 0xFF, 0xFF, 0xFF, 0xFF, 0x01])
  {
    hide Encode;
    var e: seq<byte> := [0xFF, 0xFF, 0xFF, 0xFF, 0xFF, 0xFF, 0xFF, 0xFF, 0xFF, 0x01];
    AllOnes(e);
    assert U64(-1) == 0xFFFF_FFFF_FFFF_FFFF;
    OneField(Member(1, Optional, VarintT, 4), Flagged(true, Num(-1)), 0x08, e);
    assert [0x08] + e == [0x08, 0xFF, 0xFF, 0xFF, 0xFF, 0xFF, 0xFF, 0xFF, 0xFF, 0xFF, 0x01];
  }

  lemma AllOnes(e: seq<byte>)
    requires e == [0xFF, 0xFF, 0xFF, 0xFF, 0xFF, 0xFF, 0xFF, 0xFF, 0xFF, 0x01]
    ensures Encode(0xFFFF_FFFF_FFFF_FFFF) == e
  {
    hide Encode;
    HalfOnes(e[5..]);
    More(0xFFFF_FFFF_FFFF_FFFF);
    More(0x1FF_FFFF_FFFF_FFFF);
    More(0x3_FFFF_FFFF_FFFF);
    More(0x7FF_FFFF_FFFF);
    More(0xF_FFFF_FFFF);
  }

  lemma HalfOnes(e: seq<byte>)
    requires e == [0xFF, 0xFF, 0xFF, 0xFF, 0x01]
    ensures Encode(0x1FFF_FFFF) == e
  {
    hide Encode;
    More(0x1FFF_FFFF);
    More(0x3F_FFFF);
    More(0x7FFF);
    Bytes2(0xFF, 0xFF, 0x01);
  }

  /** -2 in zigzag form, and a zero that proto3 does not send. */
  lemma Zigzagged()
    ensures EncodeMessage([Member(1, Singular, SVarintT, 4)], [Plain(Num(-2))]) == Some([0x08, 0x03])
    ensures EncodeMessage([Member(1, Singular, SVarintT, 4)], [Plain(Num(0))]) == Some([])
  {
    hide Encode;
    ZigzagInverse(-2);
    Bytes1(3);
    var e: seq<byte> := [0x03];
    OneField(Member(1, Singular, SVarintT, 4), Plain(Num(-2)), 0x08, e);
    assert [0x08] + e == [0x08, 0x03];
    NoMore(Member(1, Singular, SVarintT, 4), Plain(Num(0)));
  }

  lemma Fixed32()
    ensures EncodeMessage([Member(1, Oneof(0), Fixed32T, 4)], [Chosen(Num(0x0102))]) == Some([0x0D, 0x02, 0x01, 0, 0])
  {
    hide Encode, LittleEndian;
    var e: seq<byte> := [2, 1, 0, 0];
    Digits(0x0102, 4);
    assert LittleEndian(0x0102, 4) == e;
    OneField(Member(1, Oneof(0), Fixed32T, 4), Chosen(Num(0x0102)), 0x0D, e);
    assert [0x0D] + e == [0x0D, 0x02, 0x01, 0, 0];
  }

  lemma Fixed64()
    ensures EncodeMessage([Member(1, Required, Fixed64T, 8)], [Plain(Num(0x0102))]) == Some([0x09, 0x02, 0x01, 0, 0, 0, 0, 0, 0])
  {
    hide Encode, LittleEndian;
    var e: seq<byte> := [2, 1, 0, 0, 0, 0, 0, 0];
    Digits(0x0102, 8);
    assert LittleEndian(0x0102, 8) == e;
    OneField(Member(1, Required, Fixed64T, 8), Plain(Num(0x0102)), 0x09, e);
    assert [0x09] + e == [0x09, 0x02, 0x01, 0, 0, 0, 0, 0, 0];
  }

  lemma Digits(v: nat, n: nat)
    requires v < 0x1_0000 && n >= 2
    ensures LittleEndian(v, n)[0] == v % 256 && LittleEndian(v, n)[1] == v / 256
    ensures forall i :: 2 <= i < n ==> LittleEndian(v, n)[i] == 0
  {
    Empty(n - 2);
  }

  lemma {:induction false} Empty(n: nat)
    ensures forall i :: 0 <= i < n ==> LittleEndian(0, n)[i] == 0
  {
    if n > 0 { Empty(n - 1); }
  }

  /** "testing" in field 2. */
  lemma Text()
    ensures EncodeMessage([Member(2, Required, StringT, 16)], [Plain(Blob([0x74, 0x65, 0x73, 0x74, 0x69, 0x6E, 0x67]))]) ==
            Some([0x12, 0x07, 0x74, 0x65, 0x73, 0x74, 0x69, 0x6E, 0x67])
  {
    hide Encode;
    var b: seq<byte> := [0x74, 0x65, 0x73, 0x74, 0x69, 0x6E, 0x67];
    Bytes1(7);
    OneField(Member(2, Required, StringT, 16), Plain(Blob(b)), 0x12, [0x07] + b);
    assert [0x12] + ([0x07] + b) == [0x12, 0x07, 0x74, 0x65, 0x73, 0x74, 0x69, 0x6E, 0x67];
  }

  /** The first message as field 3 of another. */
  lemma Nested()
    ensures EncodeMessage([Member(3, Required, SubmessageT([Member(1, Required, UVarintT, 4)]), 4)], [Plain(Sub([Plain(Num(150))]))]) ==
            Some([0x1A, 0x03, 0x08, 0x96, 0x01])
  {
    hide Encode, EncodeMessage;
    Unsigned();
    var e: seq<byte> := [0x08, 0x96, 0x01];
    Bytes1(3);
    OneField(Member(3, Required, SubmessageT([Member(1, Required, UVarintT, 4)]), 4), Plain(Sub([Plain(Num(150))])), 0x1A, [0x03] + e);
    assert [0x1A] + ([0x03] + e) == [0x1A, 0x03, 0x08, 0x96, 0x01];
  }

  /** The packed array 270, 86942 in field 4. */
  lemma Packed()
    ensures EncodeMessage([Member(4, Repeated(2), UVarintT, 4)], [Items([Num(270), Num(86942)])]) ==
            Some([0x22, 0x05, 0x8E, 0x02, 0x9E, 0xA7, 0x05])
  {
    hide Encode;
    var f, items := Member(4, Repeated(2), UVarintT, 4), [Num(270), Num(86942)];
    Bytes2(270, 0x8E, 0x02);
    More(86942);
    Bytes2(679, 0xA7, 0x05);
    Bytes1(5);
    var last: seq<byte> := [0x9E, 0xA7, 0x05];
    assert [0x9E] + [0xA7, 0x05] == last;
    LastPacked(f, items, last);
    var body: seq<byte> := [0x8E, 0x02] + last;
    OneField(f, Items(items), 0x22, [0x05] + body);
    assert [0x22] + ([0x05] + body) == [0x22, 0x05, 0x8E, 0x02, 0x9E, 0xA7, 0x05];
  }

  lemma LastPacked(f: Field, items: seq<Value>, e: seq<byte>)
    requires |items| == 2 && EncodeValue(f, items[1]) == Some(e)
    ensures EncodePacked(f, items[1..]) == Some(e)
  {
    hide EncodeValue;
    assert items[1..] == [items[1]] && items[1..][1..] == [];
    assert e + [] == e;
  }

  /** Entries that cannot be packed have a key each. */
  lemma Tagged()
    ensures EncodeMessage([Member(5, Repeated(2), BytesT, 8)], [Items([Blob([1, 2]), Blob([])])]) == Some([0x2A, 0x02, 1, 2, 0x2A, 0x00])
  {
    hide Encode;
    var f, items := Member(5, Repeated(2), BytesT, 8), [Blob([1, 2]), Blob([])];
    Bytes1(0x2A);
    Bytes1(2);
    Bytes1(0);
    var last: seq<byte> := [0x2A, 0x00];
    assert [0x2A] + ([0x00] + []) == last;
    LastTagged(f, items, last);
    var e: seq<byte> := [0x02, 1, 2] + last;
    assert [0x2A] + ([0x02] + [1, 2]) + last == [0x2A] + e;
    OneField(f, Items(items), 0x2A, e);
    assert [0x2A] + e == [0x2A, 0x02, 1, 2, 0x2A, 0x00];
  }

  lemma LastTagged(f: Field, items: seq<Value>, e: seq<byte>)
    requires |items| == 2 && EncodeTagged(f, items[1]) == Some(e)
    ensures EncodeUnpacked(f, items[1..]) == Some(e)
  {
    hide EncodeTagged;
    assert items[1..] == [items[1]] && items[1..][1..] == [];
    assert e + [] == e;
  }
}
