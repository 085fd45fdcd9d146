/**
 * What the decoder stores fits the C types (pb_decode.c): exactly which numbers and byte strings a field
 * takes, and that every struct it leaves is one a program could have filled in itself.
 */
module Typing {
  import opened Bytes
  import opened Varint
  import opened Schema
  import opened Wire
  import WireBytes

  // ---------------------------------------------------------------- one value

  /** The number a varint stands for in a field: pb_dec_varint takes the low 32 bits for fields of up to
    * 32 bits, and the others the whole 64. */
  function Meant(t: LType, size: nat, v: nat): int
  {
    if t.UVarintT? then v
    else if t.SVarintT? then if v % 2 == 0 then v / 2 else -(v / 2) - 1
    else if size == 8 then if v < 0x8000_0000_0000_0000 then v else v - 0x1_0000_0000_0000_0000
    else
      var w := v % 0x1_0000_0000;
      if w < 0x8000_0000 then w else w - 0x1_0000_0000
  }

  /** The range of a number of `size` bytes. */
  predicate InRange(signed: bool, size: nat, n: int)
  {
    match size
    case 1 => if signed then -0x80 <= n < 0x80 else 0 <= n < 0x100
    case 2 => if signed then -0x8000 <= n < 0x8000 else 0 <= n < 0x1_0000
    case 4 => if signed then -0x8000_0000 <= n < 0x8000_0000 else 0 <= n < 0x1_0000_0000
    case 8 => if signed then -0x8000_0000_0000_0000 <= n < 0x8000_0000_0000_0000 else 0 <= n < 0x1_0000_0000_0000_0000
    case _ => false
  }

  /** A varint is taken exactly if what it stands for is in the field's range, and then it is stored. */
  lemma NumberVerdict(t: LType, size: nat, s: seq<byte>)
    requires t.VarintT? || t.UVarintT? || t.SVarintT?
    ensures DecodeNumber(t, size, s) ==
            if Decode64(s).Fail? || !InRange(!t.UVarintT?, size, Meant(t, size, Decode64(s).value)) then Fail
            else Got(Num(Meant(t, size, Decode64(s).value)), Decode64(s).rest)
  {
    hide Decode64;
    if Decode64(s).Got? {
      var v := Decode64(s).value;
      if t.SVarintT? { UnzigzagMeans(v); }
      if t.VarintT? { SignedMeans(size, v); }
      if IntegerSize(size) { NarrowingLoses(!t.UVarintT?, size, Meant(t, size, v)); }
    }
  }

  lemma UnzigzagMeans(v: nat)
    requires v < 0x1_0000_0000_0000_0000
    ensures Unzigzag(v) == Meant(SVarintT, 8, v)
  {
    assert TWO_64 - 1 - v / 2 < TWO_64;
  }

  lemma SignedMeans(size: nat, v: nat)
    requires v < 0x1_0000_0000_0000_0000
    ensures Meant(VarintT, size, v) ==
            if size == 8 then Signed(v, 0x1_0000_0000_0000_0000) else Signed(v, 0x1_0000_0000)
  {
  }

  /** Narrowing keeps a number exactly if it is in range. */
  lemma NarrowingLoses(signed: bool, size: nat, n: int)
    requires IntegerSize(size) && (!signed ==> n >= 0)
    ensures (if signed then Signed(n, Modulus(size)) else n % Modulus(size)) == n <==> InRange(signed, size, n)
  {
  }

  /** Bytes must leave room for their header and a string for its terminator; fixed-length bytes come
    * whole or not at all. A string ends at its first NUL. */
  lemma BlobVerdict(f: Field, s: seq<byte>)
    requires f.size < 0x1_0000_0000 && (f.ltype.BytesT? || f.ltype.StringT? || f.ltype.FixedBytesT?)
    ensures DecodeBlob(f, s) ==
            if Decode32(s).Fail? then Fail
            else
              var (n, r) := (Decode32(s).value, Decode32(s).rest);
              if f.ltype.FixedBytesT? && n == 0 then Got(Blob(Zeros(f.size)), r)
              else if n > |r| || (if f.ltype.BytesT? then n + 4 > f.size else if f.ltype.StringT? then n >= f.size else n != f.size) then Fail
              else Got(Blob(if f.ltype.StringT? then CString(r[..n]) else r[..n]), r[n..])
  {
    hide Decode32, CString, Zeros;
  }

  lemma NumberTyped(f: Field, s: seq<byte>)
    requires WellFormedField(f) && Packable(f.ltype) && DecodeNumber(f.ltype, f.size, s).Got?
    ensures TypedValue(f, DecodeNumber(f.ltype, f.size, s).value)
  {
    hide Decode64, FromLittleEndian;
    if f.ltype.Fixed32T? {
      WireBytes.ByteWeights();
      WireBytes.FromLittleEndianByte(s[..4]);
    } else if f.ltype.Fixed64T? {
      WireBytes.ByteWeights();
      WireBytes.FromLittleEndianByte(s[..8]);
    } else {
      NumberVerdict(f.ltype, f.size, s);
    }
  }

  lemma BlobTyped(f: Field, s: seq<byte>)
    requires WellFormedField(f) && (f.ltype.BytesT? || f.ltype.StringT? || f.ltype.FixedBytesT?)
    requires DecodeBlob(f, s).Got?
    ensures TypedValue(f, DecodeBlob(f, s).value)
  {
    hide Decode32;
    BlobVerdict(f, s);
  }

  // ---------------------------------------------------------------- defaults

  lemma {:induction false} DefaultTyped(f: Field)
    requires WellFormedField(f)
    ensures TypedValue(f, DefaultValue(f)) && TypedSlot(f, DefaultSlot(f))
    decreases f, 1
  {
    if f.ltype.SubmessageT? { DefaultsTyped(f.ltype.fields); }
  }

  lemma {:induction false} DefaultsTyped(fields: seq<Field>)
    requires WellFormed(fields)
    ensures TypedMessage(fields, Defaults(fields))
    decreases fields, 3
  {
    hide TypedSlot, DefaultSlot, WellFormedField;
    forall i | 0 <= i < |fields| ensures TypedSlot(fields[i], Defaults(fields)[i]) {
      assert WellFormedField(fields[i]);
      DefaultTyped(fields[i]);
    }
    NoArm(fields);
  }

  lemma NoArm(fields: seq<Field>)
    ensures OneArm(fields, Defaults(fields))
  {
    hide DefaultValue;
    forall i | 0 <= i < |fields| ensures !Defaults(fields)[i].Chosen? {
      assert Defaults(fields)[i] == DefaultSlot(fields[i]);
    }
  }

  // ---------------------------------------------------------------- one field

  lemma {:induction false} ValueTyped(f: Field, cur: Value, s: seq<byte>)
    requires WellFormedField(f) && TypedValue(f, cur) && DecodeValue(f, cur, s).Got?
    ensures TypedValue(f, DecodeValue(f, cur, s).value)
    decreases |s|, 1
  {
    hide TakeDelimited, Decode32, DecodeNumber, DecodeBlob, DecodeMessage, TypedMessage;
    DecodeBounds(s);
    if f.ltype.SubmessageT? {
      var fields := f.ltype.fields;
      var before := if cur.Sub? && |cur.slots| == |fields| then cur.slots else Defaults(fields);
      DefaultsTyped(fields);
      MessageTyped(fields, before, TakeDelimited(s).value);
    } else if Packable(f.ltype) {
      NumberTyped(f, s);
    } else {
      BlobTyped(f, s);
    }
  }

  lemma {:induction false} PackedTyped(f: Field, max: nat, items: seq<Value>, s: seq<byte>)
    requires WellFormedField(f) && |items| <= max && (forall v :: v in items ==> TypedValue(f, v)) && DecodePacked(f, max, items, s).Some?
    ensures var all := DecodePacked(f, max, items, s).value; |all| <= max && forall v :: v in all ==> TypedValue(f, v)
    decreases |s|, 2
  {
    hide DecodeValue, TypedValue, WellFormedField;
    if s != [] {
      DefaultTyped(f);
      var Got(v, r) := DecodeValue(f, DefaultValue(f), s);
      ValueTyped(f, DefaultValue(f), s);
      PackedTyped(f, max, items + [v], r);
    }
  }

  /** The other members of a union are deselected. */
  lemma ArmTyped(fields: seq<Field>, slots: seq<Slot>, i: nat, v: Value)
    requires i < |fields| && TypedMessage(fields, slots) && fields[i].rule.Oneof? && TypedValue(fields[i], v)
    ensures TypedMessage(fields, SelectArm(fields, slots, i, v))
  {
    hide TypedValue;
  }

  lemma UpdateTyped(fields: seq<Field>, slots: seq<Slot>, i: nat, s: Slot)
    requires i < |fields| && TypedMessage(fields, slots) && TypedSlot(fields[i], s) && !s.Chosen?
    ensures TypedMessage(fields, slots[i := s])
  {
    hide TypedSlot;
  }

  lemma CurrentTyped(f: Field, s: Slot)
    requires WellFormedField(f) && TypedSlot(f, s)
    ensures TypedValue(f, Current(f, s))
  {
    DefaultTyped(f);
  }

  lemma {:induction false} SlotTyped(fields: seq<Field>, i: nat, slots: seq<Slot>, wireType: nat, s: seq<byte>)
    requires WellFormed(fields) && i < |fields| && TypedMessage(fields, slots)
    requires |slots| == |fields| && DecodeSlot(fields, i, slots, wireType, s).Got?
    ensures TypedMessage(fields, DecodeSlot(fields, i, slots, wireType, s).value)
    decreases |s|, 3
  {
    hide DecodeValue, DecodePacked, TakeDelimited, TypedMessage, TypedValue, WellFormed, Defaults, SelectArm;
    var f := fields[i];
    MemberTyped(fields, slots, i);
    DefaultTyped(f);
    CurrentTyped(f, slots[i]);
    if f.rule.Repeated? {
      var items := if slots[i].Items? then slots[i].items else [];
      if wireType == WT_STRING && Packable(f.ltype) {
        DecodeBounds(s);
        PackedTyped(f, f.rule.max, items, TakeDelimited(s).value);
      } else {
        ValueTyped(f, DefaultValue(f), s);
      }
      UpdateTyped(fields, slots, i, DecodeSlot(fields, i, slots, wireType, s).value[i]);
    } else if f.rule.Oneof? {
      ValueTyped(f, DefaultValue(f), s);
      ArmTyped(fields, slots, i, DecodeValue(f, DefaultValue(f), s).value);
    } else {
      ValueTyped(f, Current(f, slots[i]), s);
      UpdateTyped(fields, slots, i, DecodeSlot(fields, i, slots, wireType, s).value[i]);
    }
  }

  lemma MemberTyped(fields: seq<Field>, slots: seq<Slot>, i: nat)
    requires WellFormed(fields) && i < |fields| && TypedMessage(fields, slots)
    ensures WellFormedField(fields[i]) && |slots| == |fields| && TypedSlot(fields[i], slots[i])
  {
  }

  // ---------------------------------------------------------------- messages

  lemma {:induction false} LoopTyped(fields: seq<Field>, p: Progress, s: seq<byte>)
    requires WellFormed(fields) && TypedMessage(fields, p.slots) && |p.slots| == |fields| && DecodeLoop(fields, p, s).Done?
    ensures TypedMessage(fields, DecodeLoop(fields, p, s).p.slots)
    decreases |s|, 5
  {
    hide Decode32, DecodeSlot, SkipField, TypedMessage, WellFormed, Find;
    DecodeBounds(s);
    if s != [] {
      var Got(t, r) := Decode32(s);
      if t != 0 {
        var Got(q, r') := DecodeField(fields, p, t / 8, t % 8, r);
        var at := Find(fields, t / 8);
        if at.Some? { SlotTyped(fields, at.value, p.slots, t % 8, r); }
        LoopTyped(fields, q, r');
      }
    }
  }

  /** Decoding into a struct of the C types leaves one of the C types, whatever the input. */
  lemma {:induction false} MessageTyped(fields: seq<Field>, slots: seq<Slot>, s: seq<byte>)
    requires WellFormed(fields) && TypedMessage(fields, slots) && |slots| == |fields|
    ensures DecodeMessage(fields, slots, s).Some? ==> TypedMessage(fields, DecodeMessage(fields, slots, s).value)
    decreases |s|, 6
  {
    hide DecodeLoop, TypedMessage, WellFormed;
    if DecodeMessage(fields, slots, s).Some? { LoopTyped(fields, Progress(slots, {}), s); }
  }

  /** pb_decode */
  lemma DecodedTyped(fields: seq<Field>, s: seq<byte>)
    requires WellFormed(fields)
    ensures var r := DecodeMessage(fields, Defaults(fields), s); r.Some? ==> TypedMessage(fields, r.value)
  {
    DefaultsTyped(fields);
    MessageTyped(fields, Defaults(fields), s);
  }
}
