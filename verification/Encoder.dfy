/**
 * The encoder as it runs (pb_encode.c): the same code counts on a sizing stream and writes on a
 * buffer. Each method appends the bytes Wire defines exactly when they exist and fit, and never
 * writes outside the stream's budget.
 */
module Encoder {
  import opened Bytes
  import opened Varint
  import opened Schema
  import opened Wire
  import opened Streams
  import opened Iterator
  import opened Bits
  import WireBytes

  // ---------------------------------------------------------------- values of the C types

  /** The size of an object fits a 64-bit size_t. */
  predicate Addressable(e: Option<seq<byte>>)
  {
    e.Some? ==> |e.value| < 0x1_0000_0000_0000_0000
  }

  /** Data of the field's C type. Unlike TypedValue it may break the limits the encoder checks:
    * the descriptor's integer size, a bytes field's size, a string's terminator. */
  predicate ShapedValue(f: Field, v: Value)
    decreases v, 0
  {
    match v
    case Num(n) =>
      TypedNumber(f.ltype, f.size, n) || ((f.ltype.VarintT? || f.ltype.UVarintT? || f.ltype.SVarintT?) && !IntegerSize(f.size))
    case Blob(b) =>
      && |b| < 0x1_0000_0000_0000_0000
      && (|| f.ltype.BytesT?
          || (f.ltype.StringT? && 0 !in b && |b| <= f.size)
          || (f.ltype.FixedBytesT? && |b| == f.size))
    case Sub(slots) =>
      f.ltype.SubmessageT? && Shaped(f.ltype.fields, slots) && Addressable(EncodeMessage(f.ltype.fields, slots))
  }

  predicate ShapedSlot(f: Field, s: Slot)
    decreases s, 0
  {
    match s
    case Plain(v) => (f.rule.Required? || f.rule.Singular?) && ShapedValue(f, v)
    case Flagged(has, v) => f.rule.Optional? && ShapedValue(f, v)
    case Items(items) => f.rule.Repeated? && Addressable(EncodePacked(f, items)) && forall v :: v in items ==> ShapedValue(f, v)
    case Chosen(v) => f.rule.Oneof? && ShapedValue(f, v)
    case Unchosen => f.rule.Oneof?
  }

  /** A struct of the C type the table describes. */
  predicate Shaped(fields: seq<Field>, slots: seq<Slot>)
    decreases slots, 0
  {
    && |fields| == |slots|
    && forall i :: 0 <= i < |slots| ==> ShapedSlot(fields[i], slots[i])
  }

  // ---------------------------------------------------------------- what a call has done

  /** The call took stream state p to q: it appended e, or failed because there is no encoding or
    * no room, keeping within the stream's budget. */
  predicate Wrote(p: Snapshot, e: Option<seq<byte>>, ok: bool, q: Snapshot)
    requires p.Valid()
  {
    && q.Valid()
    && (ok <==> e.Some? && p.Room(|e.value|))
    && if ok then q == p.Put(e.value) else p.Within(q)
  }

  function Cat(a: Option<seq<byte>>, b: Option<seq<byte>>): Option<seq<byte>>
  {
    if a.Some? && b.Some? then Some(a.value + b.value) else None
  }

  /** One write after another. */
  lemma WroteBoth(p: Snapshot, a: Option<seq<byte>>, q: Snapshot, b: Option<seq<byte>>, ok: bool, r: Snapshot)
    requires p.Valid() && Wrote(p, a, true, q) && Wrote(q, b, ok, r)
    ensures Wrote(p, Cat(a, b), ok, r)
  {
    if ok {
      PutTwice(p, a.value, b.value);
    } else {
      WithinTrans(p, q, r);
    }
  }

  /** A failed write, whatever was to follow. */
  lemma WroteNot(p: Snapshot, a: Option<seq<byte>>, b: Option<seq<byte>>, q: Snapshot)
    requires p.Valid() && Wrote(p, a, false, q)
    ensures Wrote(p, Cat(a, b), false, q)
  {
  }

  // ---------------------------------------------------------------- strings and numbers

  method EncodeTag(stream: OStream, wireType: nat, field: nat) returns (ok: bool)
    requires stream.Valid() && field * 8 + wireType < TWO_64
    modifies stream, stream.memory
    ensures Wrote(old(stream.Now()), Some(Tag(field, wireType)), ok, stream.Now())
  {
    hide Encode;
    ok := stream.EncodeVarint(field * 8 + wireType);
    if !ok { StayedWithin(stream.Now()); }
  }

  lemma StayedWithin(p: Snapshot)
    requires p.Valid()
    ensures p.Within(p)
  {
  }

  /** pb_encode_string */
  method EncodeString(stream: OStream, data: seq<byte>) returns (ok: bool)
    requires stream.Valid() && |data| < TWO_64
    modifies stream, stream.memory
    ensures Wrote(old(stream.Now()), Some(Delimited(data)), ok, stream.Now())
  {
    hide Encode;
    ghost var p := stream.Now();
    ok := stream.EncodeVarint(|data|);
    ghost var q := stream.Now();
    assert Delimited(data) == Encode(|data|) + data;
    if !ok { return false; }
    ok := stream.Write(data);
    WroteBoth(p, Some(Encode(|data|)), q, Some(data), ok, stream.Now());
  }

  /** pb_encode_fixed32 */
  method EncodeFixed32(stream: OStream, val: nat) returns (ok: bool)
    requires stream.Valid() && val < TWO_32
    modifies stream, stream.memory
    ensures Wrote(old(stream.Now()), Some(LittleEndian(val, 4)), ok, stream.Now())
  {
    hide LittleEndian, And, ShiftRight;
    WireBytes.MaskedBytes(val, 4);
    var bytes := new byte[4];
    bytes[0] := And(ShiftRight(val, 0), 0xFF);
    bytes[1] := And(ShiftRight(val, 8), 0xFF);
    bytes[2] := And(ShiftRight(val, 16), 0xFF);
    bytes[3] := And(ShiftRight(val, 24), 0xFF);
    assert bytes[..] == LittleEndian(val, 4);
    ok := stream.Write(bytes[..]);
  }

  /** pb_encode_fixed64 */
  method EncodeFixed64(stream: OStream, val: nat) returns (ok: bool)
    requires stream.Valid() && val < TWO_64
    modifies stream, stream.memory
    ensures Wrote(old(stream.Now()), Some(LittleEndian(val, 8)), ok, stream.Now())
  {
    hide LittleEndian, And, ShiftRight;
    WireBytes.MaskedBytes(val, 8);
    var bytes := new byte[8];
    bytes[0] := And(ShiftRight(val, 0), 0xFF);
    bytes[1] := And(ShiftRight(val, 8), 0xFF);
    bytes[2] := And(ShiftRight(val, 16), 0xFF);
    bytes[3] := And(ShiftRight(val, 24), 0xFF);
    bytes[4] := And(ShiftRight(val, 32), 0xFF);
    bytes[5] := And(ShiftRight(val, 40), 0xFF);
    bytes[6] := And(ShiftRight(val, 48), 0xFF);
    bytes[7] := And(ShiftRight(val, 56), 0xFF);
    assert bytes[..] == LittleEndian(val, 8);
    ok := stream.Write(bytes[..]);
  }

  /** pb_enc_varint, pb_enc_uvarint, pb_enc_svarint, pb_enc_fixed32 and pb_enc_fixed64 */
  method EncNumber(stream: OStream, f: Field, n: int) returns (ok: bool)
    requires stream.Valid() && ShapedValue(f, Num(n))
    modifies stream, stream.memory
    ensures Wrote(old(stream.Now()), EncodeNumber(f, n), ok, stream.Now())
  {
    hide Encode, LittleEndian;
    if f.ltype.Fixed32T? {
      ok := EncodeFixed32(stream, n);
    } else if f.ltype.Fixed64T? {
      ok := EncodeFixed64(stream, n);
    } else if !IntegerSize(f.size) {
      ok := false;
    } else if f.ltype.VarintT? {
      ok := stream.EncodeVarint(U64(n));
    } else if f.ltype.UVarintT? {
      ok := stream.EncodeVarint(n);
    } else {
      ZigzagBound(n);
      ok := stream.EncodeVarint(Zigzag(n));
    }
  }

  lemma ZigzagBound(n: int)
    requires -0x8000_0000_0000_0000 <= n < 0x8000_0000_0000_0000
    ensures Zigzag(n) < 0x1_0000_0000_0000_0000
  {
  }

  /** pb_enc_bytes, pb_enc_string and pb_enc_fixed_length_bytes */
  method EncBlob(stream: OStream, f: Field, b: seq<byte>) returns (ok: bool)
    requires stream.Valid() && ShapedValue(f, Blob(b))
    modifies stream, stream.memory
    ensures Wrote(old(stream.Now()), EncodeValue(f, Blob(b)), ok, stream.Now())
  {
    hide Delimited;
    if f.ltype.BytesT? && |b| + BYTES_HEADER > f.size {
      return false;
    }
    ok := EncodeString(stream, b);
  }

  // ---------------------------------------------------------------- submessages

  function SizePrefix(e: Option<seq<byte>>): Option<seq<byte>>
  {
    var body :- e;
    Some(Encode(|body|))
  }

  /** pb_encode_submessage: one pass over the submessage to size it, one to write it. The two
    * always agree, so "submsg size changed" cannot happen. */
  method EncodeSubmessage(stream: OStream, fields: seq<Field>, slots: seq<Slot>) returns (ok: bool)
    requires stream.Valid() && ProperTags(fields) && Shaped(fields, slots) && Addressable(EncodeMessage(fields, slots))
    modifies stream, stream.memory
    ensures Wrote(old(stream.Now()), Cat(SizePrefix(EncodeMessage(fields, slots)), EncodeMessage(fields, slots)), ok, stream.Now())
    decreases slots, 6
  {
    hide Encode, EncodeMessage, Shaped, ProperTags;
    ghost var e := EncodeMessage(fields, slots);
    ghost var p := stream.Now();
    var substream := new OStream.Sizing();
    ghost var zero := substream.Now();
    ok := EncodeFields(substream, fields, slots);
    if !ok { return false; }
    assert substream.Now() == zero.Put(e.value);
    var size := substream.bytesWritten;
    assert stream.Now() == p;
    ok := stream.EncodeVarint(size);
    ghost var q := stream.Now();
    if !ok { return false; }
    if !stream.writing {
      stream.Count(size);
      WroteBoth(p, Some(Encode(size)), q, e, true, stream.Now());
      return true;
    }
    if stream.bytesWritten + size > stream.maxSize {
      return false;
    }
    substream := new OStream.OnBuffer(stream.memory, stream.state, size);
    ghost var begin := substream.Now();
    ok := EncodeFields(substream, fields, slots);
    assert ok && substream.Now() == begin.Put(e.value);
    stream.bytesWritten := stream.bytesWritten + substream.bytesWritten;
    stream.state := substream.state;
    if substream.bytesWritten != size {
      assert false;
    }
    WroteBoth(p, Some(Encode(size)), q, e, true, stream.Now());
  }

  /** PB_ENCODERS */
  method EncValue(stream: OStream, f: Field, v: Value) returns (ok: bool)
    requires stream.Valid() && ShapedValue(f, v) && (f.ltype.SubmessageT? ==> ProperTags(f.ltype.fields))
    modifies stream, stream.memory
    ensures Wrote(old(stream.Now()), EncodeValue(f, v), ok, stream.Now())
    decreases v, 0
  {
    hide Encode, EncodeMessage, Shaped, ProperTags, EncodeNumber;
    match v {
      case Num(n) => ok := EncNumber(stream, f, n);
      case Blob(b) => ok := EncBlob(stream, f, b);
      case Sub(slots) =>
        ok := EncodeSubmessage(stream, f.ltype.fields, slots);
        ghost var e := EncodeMessage(f.ltype.fields, slots);
        assert EncodeValue(f, v) == Cat(SizePrefix(e), e);
    }
  }

  /** A tag and a value, as encode_basic_field and encode_array write them. */
  method EncTagged(stream: OStream, f: Field, v: Value) returns (ok: bool)
    requires stream.Valid() && ShapedValue(f, v) && ProperTag(f)
    modifies stream, stream.memory
    ensures Wrote(old(stream.Now()), EncodeTagged(f, v), ok, stream.Now())
    decreases v, 1
  {
    hide EncodeValue, Tag, ProperTags, ShapedValue;
    ghost var p := stream.Now();
    ghost var t, e := Some(Tag(f.tag, WireType(f.ltype))), EncodeValue(f, v);
    assert EncodeTagged(f, v) == Cat(t, e);
    ok := EncodeTag(stream, WireType(f.ltype), f.tag);
    ghost var q := stream.Now();
    if !ok {
      WroteNot(p, t, e, q);
      return false;
    }
    ok := EncValue(stream, f, v);
    WroteBoth(p, t, q, e, ok, stream.Now());
  }

  // ---------------------------------------------------------------- arrays

  /** Array entries of a fixed width are sized without encoding them. */
  lemma {:induction false} FixedPackedSize(f: Field, items: seq<Value>)
    requires f.ltype.Fixed32T? || f.ltype.Fixed64T?
    requires forall v :: v in items ==> ShapedValue(f, v)
    ensures EncodePacked(f, items).Some?
    ensures |EncodePacked(f, items).value| == (if f.ltype.Fixed32T? then 4 else 8) * |items|
  {
    if items != [] {
      assert ShapedValue(f, items[0]);
      FixedPackedSize(f, items[1..]);
    }
  }

  lemma PackedSplit(f: Field, items: seq<Value>, i: nat)
    requires i < |items|
    ensures EncodePacked(f, items[i..]) == Cat(EncodeValue(f, items[i]), EncodePacked(f, items[i + 1..]))
    ensures EncodeUnpacked(f, items[i..]) == Cat(EncodeTagged(f, items[i]), EncodeUnpacked(f, items[i + 1..]))
  {
    hide EncodeValue, EncodeTagged;
    assert items[i..][1..] == items[i + 1..];
  }

  lemma CatAssoc(a: Option<seq<byte>>, b: Option<seq<byte>>, c: Option<seq<byte>>)
    ensures Cat(Cat(a, b), c) == Cat(a, Cat(b, c))
    ensures Cat(a, Some([])) == a
  {
    if a.Some? && b.Some? && c.Some? {
      assert a.value + b.value + c.value == a.value + (b.value + c.value);
    }
    if a.Some? { assert a.value + [] == a.value; }
  }

  /** A stream state from which `done` has led to q and `rest` is still to come. */
  predicate Partway(p: Snapshot, done: Option<seq<byte>>, q: Snapshot, rest: Option<seq<byte>>, all: Option<seq<byte>>)
    requires p.Valid()
  {
    Wrote(p, done, true, q) && all == Cat(done, rest)
  }

  /** A further piece, written or not. */
  lemma PartwayStep(p: Snapshot, done: Option<seq<byte>>, q: Snapshot, piece: Option<seq<byte>>, rest: Option<seq<byte>>,
                    all: Option<seq<byte>>, ok: bool, r: Snapshot)
    requires p.Valid() && Partway(p, done, q, Cat(piece, rest), all) && Wrote(q, piece, ok, r)
    ensures r.Valid()
    ensures ok ==> Partway(p, Cat(done, piece), r, rest, all)
    ensures !ok ==> Wrote(p, all, false, r)
  {
    CatAssoc(done, piece, rest);
    WroteBoth(p, done, q, piece, ok, r);
    if !ok { WroteNot(p, Cat(done, piece), rest, r); }
  }

  lemma PartwayBegin(p: Snapshot, all: Option<seq<byte>>)
    requires p.Valid()
    ensures Partway(p, Some([]), p, all, all)
  {
    PutEmpty(p);
    if all.Some? { assert [] + all.value == all.value; }
  }

  lemma PartwayEnd(p: Snapshot, done: Option<seq<byte>>, q: Snapshot, all: Option<seq<byte>>)
    requires p.Valid() && Partway(p, done, q, Some([]), all)
    ensures Wrote(p, all, true, q)
  {
    CatAssoc(done, None, None);
  }

  /** The loop over the entries of a packed array, on a sizing stream or on the real one. */
  method EncodeEntries(stream: OStream, f: Field, items: seq<Value>) returns (ok: bool)
    requires stream.Valid() && Packable(f.ltype) && forall v :: v in items ==> ShapedValue(f, v)
    modifies stream, stream.memory
    ensures Wrote(old(stream.Now()), EncodePacked(f, items), ok, stream.Now())
    decreases items, 1
  {
    hide EncodeValue, ShapedValue, Partway, Wrote, EncodePacked;
    ghost var p, all := stream.Now(), EncodePacked(f, items);
    ghost var done := Some([]);
    PartwayBegin(p, all);
    var i := 0;
    assert items[0..] == items;
    while i < |items|
      invariant i <= |items| && stream.Valid() && Partway(p, done, stream.Now(), EncodePacked(f, items[i..]), all)
    {
      ghost var q := stream.Now();
      PackedSplit(f, items, i);
      assert items[i] in items;
      ok := EncValue(stream, f, items[i]);
      PartwayStep(p, done, q, EncodeValue(f, items[i]), EncodePacked(f, items[i + 1..]), all, ok, stream.Now());
      if !ok { return false; }
      done := Cat(done, EncodeValue(f, items[i]));
      i := i + 1;
    }
    PackedEnd(f, items);
    PartwayEnd(p, done, stream.Now(), all);
    return true;
  }

  lemma PackedEnd(f: Field, items: seq<Value>)
    ensures EncodePacked(f, items[|items|..]) == Some([]) && EncodeUnpacked(f, items[|items|..]) == Some([])
  {
  }

  /** The branch of encode_array for types that are not packed. */
  method EncodeEntriesTagged(stream: OStream, f: Field, items: seq<Value>) returns (ok: bool)
    requires stream.Valid() && ProperTag(f) && forall v :: v in items ==> ShapedValue(f, v)
    modifies stream, stream.memory
    ensures Wrote(old(stream.Now()), EncodeUnpacked(f, items), ok, stream.Now())
    decreases items, 2
  {
    hide EncodeTagged, ShapedValue, Partway, Wrote, EncodeUnpacked, ProperTag;
    ghost var p, all := stream.Now(), EncodeUnpacked(f, items);
    ghost var done := Some([]);
    PartwayBegin(p, all);
    var i := 0;
    assert items[0..] == items;
    while i < |items|
      invariant i <= |items| && stream.Valid() && Partway(p, done, stream.Now(), EncodeUnpacked(f, items[i..]), all)
    {
      ghost var q := stream.Now();
      PackedSplit(f, items, i);
      assert items[i] in items;
      ok := EncTagged(stream, f, items[i]);
      PartwayStep(p, done, q, EncodeTagged(f, items[i]), EncodeUnpacked(f, items[i + 1..]), all, ok, stream.Now());
      if !ok { return false; }
      done := Cat(done, EncodeTagged(f, items[i]));
      i := i + 1;
    }
    PackedEnd(f, items);
    PartwayEnd(p, done, stream.Now(), all);
    return true;
  }

  /** "Determine the total size of packed array" in encode_array. */
  method PackedSize(f: Field, items: seq<Value>) returns (ok: bool, size: nat)
    requires Packable(f.ltype) && forall v :: v in items ==> ShapedValue(f, v)
    ensures ok == EncodePacked(f, items).Some?
    ensures ok ==> size == |EncodePacked(f, items).value|
    decreases items, 2
  {
    hide EncodePacked, ShapedValue;
    ok := true;
    if f.ltype.Fixed32T? {
      size := 4 * |items|;
      FixedPackedSize(f, items);
    } else if f.ltype.Fixed64T? {
      size := 8 * |items|;
      FixedPackedSize(f, items);
    } else {
      var sizestream := new OStream.Sizing();
      ok := EncodeEntries(sizestream, f, items);
      size := sizestream.bytesWritten;
    }
  }

  /** The size could not be determined, so nothing follows what was written. */
  lemma SizeUnknown(p: Snapshot, done: Option<seq<byte>>, q: Snapshot, e: Option<seq<byte>>)
    requires p.Valid() && e == None && Wrote(p, done, true, q)
    ensures Wrote(p, Cat(done, Cat(SizePrefix(e), e)), false, q)
  {
  }

  /** The packed branch of encode_array: tag, size and entries. */
  method EncodePackedArray(stream: OStream, f: Field, items: seq<Value>) returns (ok: bool)
    requires stream.Valid() && ProperTag(f) && Packable(f.ltype) && forall v :: v in items ==> ShapedValue(f, v)
    requires Addressable(EncodePacked(f, items))
    modifies stream, stream.memory
    ensures var e := EncodePacked(f, items);
            Wrote(old(stream.Now()), Cat(Some(Tag(f.tag, WT_STRING)), Cat(SizePrefix(e), e)), ok, stream.Now())
    decreases items, 3
  {
    assert f.tag < 0x1_0000_0000;
    hide EncodePacked, ShapedValue, Tag, Encode, ProperTag, Cat;
    ghost var p, e, t := stream.Now(), EncodePacked(f, items), Some(Tag(f.tag, WT_STRING));
    ok := EncodeTag(stream, WT_STRING, f.tag);
    ghost var q := stream.Now();
    if !ok {
      WroteNot(p, t, Cat(SizePrefix(e), e), q);
      return false;
    }
    var size;
    ok, size := PackedSize(f, items);
    if !ok {
      SizeUnknown(p, t, q, e);
      return false;
    }
    ok := EncodeSized(stream, f, items, size);
    WroteBoth(p, t, q, Cat(SizePrefix(e), e), ok, stream.Now());
  }

  /** Size prefix and entries; a sizing stream only adds the size. */
  method EncodeSized(stream: OStream, f: Field, items: seq<Value>, size: nat) returns (ok: bool)
    requires stream.Valid() && Packable(f.ltype) && forall v :: v in items ==> ShapedValue(f, v)
    requires EncodePacked(f, items).Some? && size == |EncodePacked(f, items).value| < 0x1_0000_0000_0000_0000
    modifies stream, stream.memory
    ensures var e := EncodePacked(f, items);
            Wrote(old(stream.Now()), Cat(SizePrefix(e), e), ok, stream.Now())
    decreases items, 2
  {
    hide EncodePacked, ShapedValue, Encode;
    ghost var p, e := stream.Now(), EncodePacked(f, items);
    ok := stream.EncodeVarint(size);
    ghost var q := stream.Now();
    if !ok { return false; }
    if !stream.writing {
      stream.Count(size);
    } else {
      ok := EncodeEntries(stream, f, items);
    }
    WroteBoth(p, SizePrefix(e), q, e, ok, stream.Now());
  }

  /** encode_array */
  method EncodeArray(stream: OStream, f: Field, max: nat, items: seq<Value>) returns (ok: bool)
    requires stream.Valid() && ProperTag(f) && Addressable(EncodePacked(f, items)) && forall v :: v in items ==> ShapedValue(f, v)
    modifies stream, stream.memory
    ensures Wrote(old(stream.Now()), Wire.EncodeArray(f, max, items), ok, stream.Now())
    decreases items, 4
  {
    hide EncodePacked, EncodeUnpacked, ShapedValue, Tag, Encode;
    ghost var p := stream.Now();
    if |items| == 0 {
      PutEmpty(p);
      return true;
    }
    if |items| > max {
      return false;
    }
    if Packable(f.ltype) {
      ghost var e := EncodePacked(f, items);
      assert Wire.EncodeArray(f, max, items) == Cat(Some(Tag(f.tag, WT_STRING)), Cat(SizePrefix(e), e));
      ok := EncodePackedArray(stream, f, items);
    } else {
      ok := EncodeEntriesTagged(stream, f, items);
    }
  }

  // ---------------------------------------------------------------- fields and messages

  /** pb_check_proto3_default_value for a singular field's data. */
  method CheckDefaultValue(f: Field, v: Value) returns (isDefault: bool)
    requires ShapedValue(f, v) && (f.ltype.SubmessageT? ==> ProperTags(f.ltype.fields))
    ensures isDefault == IsDefault(f, v)
    decreases v, 0
  {
    match v {
      case Num(n) => return n == 0;
      case Blob(b) => return if f.ltype.FixedBytesT? then f.size == 0 else b == [];
      case Sub(slots) =>
        hide ProperTags;
        var fields := f.ltype.fields;
        Nonzero(fields);
        var iter := new FieldIter(fields, 0);
        var more := iter.Begin();
        while more
          modifies iter
          invariant fresh(iter) && iter.Valid() && iter.fields == fields
          invariant more ==> iter.pos < |fields|
          invariant forall j :: 0 <= j < |fields| && (more ==> j < iter.pos) ==> IsDefaultSlot(fields[j], slots[j])
          decreases if more then |fields| - iter.pos + 1 else 0
        {
          ProperField(fields, iter.pos);
          var d := CheckDefaultSlot(fields[iter.pos], slots[iter.pos]);
          if !d { return false; }
          more := iter.Next();
        }
        return true;
    }
  }

  lemma Nonzero(fields: seq<Field>)
    requires ProperTags(fields)
    ensures NonZeroTags(fields)
  {
  }

  lemma ProperField(fields: seq<Field>, i: nat)
    requires ProperTags(fields) && i < |fields|
    ensures ProperTag(fields[i])
  {
  }

  /** pb_check_proto3_default_value inside a submessage. */
  method CheckDefaultSlot(f: Field, s: Slot) returns (isDefault: bool)
    requires ShapedSlot(f, s) && ProperTag(f)
    ensures isDefault == IsDefaultSlot(f, s)
    decreases s, 0
  {
    match s {
      case Plain(v) =>
        if f.rule.Required? { return false; }
        isDefault := CheckDefaultValue(f, v);
      case Flagged(has, v) => return !has;
      case Items(items) => return |items| == 0;
      case Chosen(v) => return false;
      case Unchosen => return true;
    }
  }

  /** encode_basic_field */
  method EncodeBasicField(stream: OStream, f: Field, s: Slot) returns (ok: bool)
    requires stream.Valid() && ShapedSlot(f, s) && ProperTag(f)
    modifies stream, stream.memory
    ensures Wrote(old(stream.Now()), EncodeSlot(f, s), ok, stream.Now())
    decreases s, 5
  {
    hide EncodeTagged, Wire.EncodeArray, ShapedValue, EncodePacked, Wrote, IsDefault;
    Skipped(stream.Now());
    match s {
      case Plain(v) =>
        var implicitHas := true;
        if f.rule.Singular? {
          var isDefault := CheckDefaultValue(f, v);
          implicitHas := !isDefault;
        }
        if !implicitHas { return true; }
        ok := EncTagged(stream, f, v);
      case Flagged(has, v) =>
        if !has { return true; }
        ok := EncTagged(stream, f, v);
      case Items(items) =>
        ok := EncodeArray(stream, f, f.rule.max, items);
      case Chosen(v) =>
        ok := EncTagged(stream, f, v);
      case Unchosen =>
        return true;
    }
  }

  lemma Skipped(p: Snapshot)
    requires p.Valid()
    ensures Wrote(p, Some([]), true, p)
  {
    PutEmpty(p);
  }

  lemma MessageSplit(fields: seq<Field>, slots: seq<Slot>, i: nat)
    requires i < |fields| == |slots|
    ensures EncodeMessage(fields[i..], slots[i..]) ==
            Cat(EncodeSlot(fields[i], slots[i]), EncodeMessage(fields[i + 1..], slots[i + 1..]))
  {
    hide EncodeSlot;
    assert fields[i..][1..] == fields[i + 1..] && slots[i..][1..] == slots[i + 1..];
  }

  /** pb_encode */
  method EncodeFields(stream: OStream, fields: seq<Field>, slots: seq<Slot>) returns (ok: bool)
    requires stream.Valid() && ProperTags(fields) && Shaped(fields, slots)
    modifies stream, stream.memory
    ensures Wrote(old(stream.Now()), EncodeMessage(fields, slots), ok, stream.Now())
    decreases slots, 5
  {
    hide EncodeSlot, ShapedSlot, Partway, Wrote, EncodeMessage, ProperTag, ProperTags;
    ghost var p, all, n := stream.Now(), EncodeMessage(fields, slots), |fields|;
    ghost var done := Some([]);
    PartwayBegin(p, all);
    Nonzero(fields);
    MessageEnd(fields, slots);
    var iter := new FieldIter(fields, 0);
    var more := iter.Begin();
    assert fields[0..] == fields && slots[0..] == slots;
    while more
      modifies stream, stream.memory, iter
      invariant fresh(iter) && iter.Valid() && iter.fields == fields && stream.Valid()
      invariant more ==> iter.pos < n
      invariant var i := if more then iter.pos else n;
                Partway(p, done, stream.Now(), EncodeMessage(fields[i..], slots[i..]), all)
      decreases if more then n - iter.pos + 1 else 0
    {
      var i := iter.pos;
      ghost var q := stream.Now();
      MessageSplit(fields, slots, i);
      ProperField(fields, i);
      ok := EncodeBasicField(stream, fields[i], slots[i]);
      PartwayStep(p, done, q, EncodeSlot(fields[i], slots[i]), EncodeMessage(fields[i + 1..], slots[i + 1..]), all, ok, stream.Now());
      if !ok { return false; }
      done := Cat(done, EncodeSlot(fields[i], slots[i]));
      more := iter.Next();
    }
    PartwayEnd(p, done, stream.Now(), all);
    return true;
  }

  lemma MessageEnd(fields: seq<Field>, slots: seq<Slot>)
    requires |fields| == |slots|
    ensures EncodeMessage(fields[|fields|..], slots[|fields|..]) == Some([])
  {
  }

  /** pb_get_encoded_size */
  method GetEncodedSize(fields: seq<Field>, slots: seq<Slot>) returns (ok: bool, size: nat)
    requires ProperTags(fields) && Shaped(fields, slots)
    ensures ok == EncodeMessage(fields, slots).Some?
    ensures ok ==> size == |EncodeMessage(fields, slots).value|
  {
    var stream := new OStream.Sizing();
    ok := EncodeFields(stream, fields, slots);
    size := stream.bytesWritten;
  }

  /** Sizing and writing agree: a sizing run and a real run of the same encoding advance
    * bytes_written alike, and the real run succeeds exactly when the size found fits. */
  lemma SizingEqualsWriting(e: Option<seq<byte>>, s: Snapshot, sized: bool, s': Snapshot, w: Snapshot, ok: bool, w': Snapshot)
    requires s.Valid() && !s.writing && Wrote(s, e, sized, s')
    requires w.Valid() && w.writing && Wrote(w, e, ok, w')
    ensures ok <==> sized && w.bytesWritten + (s'.bytesWritten - s.bytesWritten) <= w.maxSize
    ensures ok ==> w'.bytesWritten - w.bytesWritten == s'.bytesWritten - s.bytesWritten
  {
  }
}
