/**
 * The decoder as it runs: the field decoders, the static-field decoder and the field loop over
 * streams, iterator and destination struct (pb_decode.c). Each computes the function of Wire of
 * the same purpose on the bytes left in its stream, and keeps the stream's end in place.
 */
module Decoder {
  import opened Bytes
  import opened Varint
  import opened Schema
  import Wire
  import opened Streams
  import opened Iterator
  import opened RequiredMask
  import opened Bits
  import WireBytes

  /** The struct behind dest_struct. */
  class Struct {
    var slots: seq<Slot>

    constructor (slots: seq<Slot>)
      ensures this.slots == slots
    {
      this.slots := slots;
    }
  }

  /** The call did what p says: failed, or yielded the value and left p's rest in the stream. */
  ghost predicate Reads<T>(p: Parsed<T>, ok: bool, v: T, stream: IStream)
    requires stream.Valid()
    reads stream
  {
    if ok then p == Got(v, stream.Remaining()) else p == Fail
  }

  /** The stream's end has not moved; a failed call may have cut it short, never extended it. */
  twostate predicate Confined(stream: IStream, ok: bool)
    reads stream
  {
    stream.End() <= old(stream.End()) && (ok ==> stream.End() == old(stream.End()))
  }

  // ---------------------------------------------------------------- field decoders

  /** pb_dec_varint */
  method DecVarint(stream: IStream, f: Field) returns (ok: bool, v: Value)
    requires stream.Valid() && f.ltype.VarintT?
    modifies stream
    ensures stream.Valid() && stream.End() == old(stream.End())
    ensures Reads(Wire.DecodeNumber(f.ltype, f.size, old(stream.Remaining())), ok, v, stream)
    ensures !ok ==> stream.Remaining() == Wire.FailedNumber(f.ltype, old(stream.Remaining()))
  {
    hide Decode64, Signed;
    var value;
    ok, value := stream.DecodeVarint();
    if !ok { return false, Num(0); }
    var svalue := if f.size == 8 then Signed(value, 0x1_0000_0000_0000_0000) else Signed(value, 0x1_0000_0000);
    if !IntegerSize(f.size) { return false, Num(0); }
    var clamped := Signed(svalue, Modulus(f.size));
    return clamped == svalue, Num(clamped);
  }

  /** pb_dec_uvarint */
  method DecUvarint(stream: IStream, f: Field) returns (ok: bool, v: Value)
    requires stream.Valid() && f.ltype.UVarintT?
    modifies stream
    ensures stream.Valid() && stream.End() == old(stream.End())
    ensures Reads(Wire.DecodeNumber(f.ltype, f.size, old(stream.Remaining())), ok, v, stream)
    ensures !ok ==> stream.Remaining() == Wire.FailedNumber(f.ltype, old(stream.Remaining()))
  {
    hide Decode64;
    var value;
    ok, value := stream.DecodeVarint();
    if !ok || !IntegerSize(f.size) { return false, Num(0); }
    var clamped := value % Modulus(f.size);
    return clamped == value, Num(clamped);
  }

  /** pb_dec_svarint */
  method DecSvarint(stream: IStream, f: Field) returns (ok: bool, v: Value)
    requires stream.Valid() && f.ltype.SVarintT?
    modifies stream
    ensures stream.Valid() && stream.End() == old(stream.End())
    ensures Reads(Wire.DecodeNumber(f.ltype, f.size, old(stream.Remaining())), ok, v, stream)
    ensures !ok ==> stream.Remaining() == Wire.FailedNumber(f.ltype, old(stream.Remaining()))
  {
    hide Decode64, Signed, Unzigzag;
    var value;
    ok, value := stream.DecodeVarint();
    if !ok || !IntegerSize(f.size) { return false, Num(0); }
    var n := Unzigzag(value);
    var clamped := Signed(n, Modulus(f.size));
    return clamped == n, Num(clamped);
  }

  /** pb_decode_fixed32 */
  method DecodeFixed32(stream: IStream) returns (ok: bool, dest: nat)
    requires stream.Valid()
    modifies stream
    ensures stream.Valid() && stream.End() == old(stream.End())
    ensures ok <==> 4 <= |old(stream.Remaining())|
    ensures ok ==> dest == Wire.FromLittleEndian(old(stream.Remaining())[..4]) && stream.Remaining() == old(stream.Remaining())[4..]
    ensures !ok ==> stream.Remaining() == old(stream.Remaining())
  {
    hide ShiftLeft, Wire.FromLittleEndian, Or;
    var bytes;
    ok, bytes := stream.Read(4);
    if !ok { return false, 0; }
    FrontWords(bytes);
    return true, Or(Or(Or(ShiftLeft(bytes[0], 0), ShiftLeft(bytes[1], 8)), ShiftLeft(bytes[2], 16)), ShiftLeft(bytes[3], 24));
  }

  /** pb_decode_fixed64 */
  method DecodeFixed64(stream: IStream) returns (ok: bool, dest: nat)
    requires stream.Valid()
    modifies stream
    ensures stream.Valid() && stream.End() == old(stream.End())
    ensures ok <==> 8 <= |old(stream.Remaining())|
    ensures ok ==> dest == Wire.FromLittleEndian(old(stream.Remaining())[..8]) && stream.Remaining() == old(stream.Remaining())[8..]
    ensures !ok ==> stream.Remaining() == old(stream.Remaining())
  {
    hide ShiftLeft, Wire.FromLittleEndian, Or;
    var bytes;
    ok, bytes := stream.Read(8);
    if !ok { return false, 0; }
    FrontWords(bytes);
    var low := Or(Or(Or(ShiftLeft(bytes[0], 0), ShiftLeft(bytes[1], 8)), ShiftLeft(bytes[2], 16)), ShiftLeft(bytes[3], 24));
    return true, Or(Or(Or(Or(low, ShiftLeft(bytes[4], 32)), ShiftLeft(bytes[5], 40)), ShiftLeft(bytes[6], 48)), ShiftLeft(bytes[7], 56));
  }

  /** Or-ing in the next byte of the word. */
  lemma FrontWords(s: seq<byte>)
    requires |s| == 4 || |s| == 8
    ensures Wire.FromLittleEndian(s[..1]) == ShiftLeft(s[0], 0)
    ensures forall i {:trigger s[i]} :: 1 <= i < |s| ==>
              Wire.FromLittleEndian(s[..i + 1]) == Or(Wire.FromLittleEndian(s[..i]), ShiftLeft(s[i], 8 * i))
    ensures s[..|s|] == s
  {
    WireBytes.OrByte(s, 0);
    forall i {:trigger s[i]} | 1 <= i < |s|
      ensures Wire.FromLittleEndian(s[..i + 1]) == Or(Wire.FromLittleEndian(s[..i]), ShiftLeft(s[i], 8 * i))
    {
      WireBytes.OrByte(s, i);
    }
  }

  /** pb_dec_fixed32 and pb_dec_fixed64 */
  method DecFixed(stream: IStream, f: Field) returns (ok: bool, v: Value)
    requires stream.Valid() && (f.ltype.Fixed32T? || f.ltype.Fixed64T?)
    modifies stream
    ensures stream.Valid() && stream.End() == old(stream.End())
    ensures Reads(Wire.DecodeNumber(f.ltype, f.size, old(stream.Remaining())), ok, v, stream)
    ensures !ok ==> stream.Remaining() == Wire.FailedNumber(f.ltype, old(stream.Remaining()))
  {
    hide Wire.FromLittleEndian;
    var n;
    if f.ltype.Fixed32T? {
      ok, n := DecodeFixed32(stream);
    } else {
      ok, n := DecodeFixed64(stream);
    }
    v := Num(n);
  }

  /** pb_dec_bytes */
  method DecBytes(stream: IStream, f: Field) returns (ok: bool, v: Value)
    requires stream.Valid() && f.ltype.BytesT?
    modifies stream
    ensures stream.Valid() && stream.End() == old(stream.End())
    ensures Reads(Wire.DecodeBlob(f, old(stream.Remaining())), ok, v, stream)
  {
    hide Decode32;
    var size;
    ok, size := stream.DecodeVarint32();
    if !ok || size + BYTES_HEADER > f.size { return false, Blob([]); }
    var data;
    ok, data := stream.Read(size);
    v := Blob(data);
  }

  /** pb_dec_string: the bytes read are terminated, so the string ends at the first NUL. */
  method DecString(stream: IStream, f: Field) returns (ok: bool, v: Value)
    requires stream.Valid() && f.ltype.StringT?
    modifies stream
    ensures stream.Valid() && stream.End() == old(stream.End())
    ensures Reads(Wire.DecodeBlob(f, old(stream.Remaining())), ok, v, stream)
  {
    hide Decode32;
    var size;
    ok, size := stream.DecodeVarint32();
    if !ok { return false, Blob([]); }
    var allocSize := U32(size + 1);
    if allocSize < size || allocSize > f.size { return false, Blob([]); }
    var data;
    ok, data := stream.Read(size);
    v := Blob(CString(data));
  }

  /** pb_dec_fixed_length_bytes */
  method DecFixedLengthBytes(stream: IStream, f: Field) returns (ok: bool, v: Value)
    requires stream.Valid() && f.ltype.FixedBytesT?
    modifies stream
    ensures stream.Valid() && stream.End() == old(stream.End())
    ensures Reads(Wire.DecodeBlob(f, old(stream.Remaining())), ok, v, stream)
  {
    hide Decode32;
    var size;
    ok, size := stream.DecodeVarint32();
    if !ok { return false, Blob([]); }
    if size == 0 { return true, Blob(Zeros(f.size)); }
    if size != f.size { return false, Blob([]); }
    var data;
    ok, data := stream.Read(f.size);
    v := Blob(data);
  }

  /** pb_dec_submessage: the payload is decoded on a substream, after which the parent stands at
    * the payload's end whatever the nested decoder read. New array entries are initialised first. */
  method DecSubmessage(stream: IStream, f: Field, cur: Value) returns (ok: bool, v: Value)
    requires stream.Valid() && f.ltype.SubmessageT? && ProperTags(f.ltype.fields)
    modifies stream
    ensures stream.Valid() && Confined(stream, ok)
    ensures Reads(Wire.DecodeValue(f, if f.rule.Repeated? then DefaultValue(f) else cur, old(stream.Remaining())), ok, v, stream)
    decreases stream.bytesLeft, 0
  {
    hide Decode32, Wire.DecodeMessage, Wire.DecodeValue, ProperTags, Defaults;
    SubmessageMeaning(f, if f.rule.Repeated? then DefaultValue(f) else cur, stream.Remaining());
    var substream;
    ok, substream := stream.MakeSubstream();
    if !ok { return false, cur; }
    var slots;
    ok, slots := DecodePayload(substream, f, cur);
    stream.CloseSubstream(substream);
    v := Sub(slots);
  }

  /** The nested call of pb_decode or pb_decode_noinit. */
  method DecodePayload(substream: IStream, f: Field, cur: Value) returns (ok: bool, slots: seq<Slot>)
    requires substream.Valid() && f.ltype.SubmessageT? && ProperTags(f.ltype.fields)
    modifies substream
    ensures substream.Valid() && Confined(substream, ok)
    ensures var start := if f.rule.Repeated? then DefaultValue(f) else cur;
            var before := if start.Sub? && |start.slots| == |f.ltype.fields| then start.slots else Defaults(f.ltype.fields);
            Wire.DecodeMessage(f.ltype.fields, before, old(substream.Remaining())) == if ok then Some(slots) else None
    decreases substream.bytesLeft, 6
  {
    hide Wire.DecodeMessage, Wire.DecodeLoop, ProperTags, Defaults;
    var fields := f.ltype.fields;
    var dest := new Struct(if cur.Sub? && |cur.slots| == |fields| then cur.slots else Defaults(fields));
    if f.rule.Repeated? {
      ok := Decode(substream, fields, dest);
    } else {
      ok := DecodeNoInit(substream, fields, dest);
    }
    slots := dest.slots;
  }

  lemma SubmessageMeaning(f: Field, cur: Value, s: seq<byte>)
    requires f.ltype.SubmessageT?
    ensures Wire.TakeDelimited(s).Got? ==> |Wire.TakeDelimited(s).value| < |s|
    ensures var fields, p := f.ltype.fields, Wire.TakeDelimited(s);
            var before := if cur.Sub? && |cur.slots| == |fields| then cur.slots else Defaults(fields);
            Wire.DecodeValue(f, cur, s) ==
            if p.Fail? then Fail
            else
              match Wire.DecodeMessage(fields, before, p.value)
              case Some(slots) => Got(Sub(slots), p.rest)
              case None => Fail
  {
    hide Wire.TakeDelimited, Wire.DecodeMessage;
    Wire.DecodeBounds(s);
  }

  /** PB_DECODERS */
  method DecValue(stream: IStream, f: Field, cur: Value) returns (ok: bool, v: Value)
    requires stream.Valid() && (f.ltype.SubmessageT? ==> ProperTags(f.ltype.fields))
    modifies stream
    ensures stream.Valid() && Confined(stream, ok)
    ensures Reads(Wire.DecodeValue(f, if f.rule.Repeated? then DefaultValue(f) else cur, old(stream.Remaining())), ok, v, stream)
    decreases stream.bytesLeft, 1
  {
    hide Wire.DecodeBlob, Wire.DecodeNumber, Wire.DecodeMessage, ProperTags;
    match f.ltype {
      case VarintT => ok, v := DecVarint(stream, f);
      case UVarintT => ok, v := DecUvarint(stream, f);
      case SVarintT => ok, v := DecSvarint(stream, f);
      case Fixed32T => ok, v := DecFixed(stream, f);
      case Fixed64T => ok, v := DecFixed(stream, f);
      case BytesT => ok, v := DecBytes(stream, f);
      case StringT => ok, v := DecString(stream, f);
      case FixedBytesT => ok, v := DecFixedLengthBytes(stream, f);
      case SubmessageT(_) => ok, v := DecSubmessage(stream, f, cur);
    }
  }

  // ---------------------------------------------------------------- default values

  /** pb_field_set_to_default */
  method FieldSetToDefault(f: Field) returns (slot: Slot)
    requires f.ltype.SubmessageT? ==> ProperTags(f.ltype.fields)
    ensures slot == DefaultSlot(f)
    decreases f, 0
  {
    if f.rule.Repeated? {
      return Items([]);
    } else if f.rule.Oneof? {
      return Unchosen;
    }
    var data;
    if f.ltype.SubmessageT? {
      var sub := new Struct(seq(|f.ltype.fields|, i => Unchosen));
      MessageSetToDefaults(f.ltype.fields, sub);
      data := Sub(sub.slots);
    } else {
      data := f.dflt;
    }
    return if f.rule.Optional? then Flagged(false, data) else Plain(data);
  }

  /** pb_message_set_to_defaults */
  method MessageSetToDefaults(fields: seq<Field>, dest: Struct)
    requires ProperTags(fields) && |dest.slots| == |fields|
    modifies dest
    ensures dest.slots == Defaults(fields)
    decreases fields, 1
  {
    var iter := new FieldIter(fields, 0);
    var more := iter.Begin();
    if !more { return; }
    while more
      modifies dest, iter
      invariant fresh(iter) && iter.Valid() && iter.fields == fields && |dest.slots| == |fields|
      invariant forall j :: 0 <= j < |fields| && (more ==> j < iter.pos) ==> dest.slots[j] == DefaultSlot(fields[j])
      decreases if more then |fields| - iter.pos + 1 else 0
    {
      var slot := FieldSetToDefault(fields[iter.pos]);
      dest.slots := dest.slots[iter.pos := slot];
      more := iter.Next();
    }
  }

  // ---------------------------------------------------------------- fields and messages

  /** An array entry that is a number takes at least one byte. */
  lemma NumberProgress(t: LType, size: nat, s: seq<byte>)
    requires Wire.DecodeNumber(t, size, s).Got?
    ensures |Wire.DecodeNumber(t, size, s).rest| < |s|
  {
  }

  /** The loop over a packed array in decode_static_field; `status` is what the last entry's
    * decoder returned. The bytes it leaves decide whether the substream will be closed. */
  method DecodePacked(substream: IStream, f: Field, max: nat, before: seq<Value>) returns (status: bool, items: seq<Value>)
    requires substream.Valid() && Packable(f.ltype) && f.rule.Repeated?
    modifies substream
    ensures substream.Valid() && substream.End() == old(substream.End())
    ensures Wire.PackedEnd(status, items, substream.Remaining()) == Wire.PackedLoop(f, max, before, old(substream.Remaining()))
    ensures Wire.DecodePacked(f, max, before, old(substream.Remaining())) ==
            if status && substream.bytesLeft == 0 then Some(items) else None
    decreases substream.bytesLeft, 2
  {
    hide Wire.DecodeNumber, Wire.FailedNumber, Wire.DecodePacked;
    ghost var s := substream.Remaining();
    status, items := true, before;
    while substream.bytesLeft > 0 && |items| < max && status
      invariant substream.Valid() && substream.End() == old(substream.End())
      invariant status ==> substream.bytesLeft <= old(substream.bytesLeft)
      invariant Wire.PackedLoop(f, max, before, s) ==
                if status then Wire.PackedLoop(f, max, items, substream.Remaining())
                else Wire.PackedEnd(false, items, substream.Remaining())
      decreases status, substream.bytesLeft
    {
      ghost var r := substream.Remaining();
      if Wire.DecodeNumber(f.ltype, f.size, r).Got? { NumberProgress(f.ltype, f.size, r); }
      var v;
      status, v := DecNumber(substream, f);
      if status {
        items := items + [v];
      }
    }
    PackedMeaning(f, max, before, s);
  }

  /** The array is what the loop has read if it failed on no entry and left nothing. */
  lemma {:induction false} PackedMeaning(f: Field, max: nat, items: seq<Value>, s: seq<byte>)
    requires Packable(f.ltype)
    ensures var e := Wire.PackedLoop(f, max, items, s);
            Wire.DecodePacked(f, max, items, s) == if e.status && e.rest == [] then Some(e.items) else None
    decreases |s|
  {
    hide Wire.DecodeNumber, Wire.FailedNumber;
    if s != [] && |items| < max {
      assert Wire.DecodeValue(f, DefaultValue(f), s) == Wire.DecodeNumber(f.ltype, f.size, s);
      if Wire.DecodeNumber(f.ltype, f.size, s).Got? {
        NumberProgress(f.ltype, f.size, s);
        var Got(v, r) := Wire.DecodeNumber(f.ltype, f.size, s);
        PackedMeaning(f, max, items + [v], r);
      }
    }
  }

  /** Where it happens: a second entry for an array of one is left unread, whereas a last entry that
    * is cut off is read to the end. */
  lemma PackedLeavesBytes()
    ensures var f := Field(1, Repeated(1), UVarintT, 4, Num(0), 0, 0);
            && Wire.TakeDelimited([2, 1, 2]) == Got([1, 2], [])
            && Wire.PackedLoop(f, 1, [], [1, 2]) == Wire.PackedEnd(true, [Num(1)], [2])
            && Wire.PackedLoop(f, 1, [], [128]) == Wire.PackedEnd(false, [], [])
  {
    SmallVarints();
    hide Decode64, Decode32;
    assert [1, 2][..2] == [1, 2] && [1, 2][2..] == [];
    assert [] + [Num(1)] == [Num(1)];
  }

  lemma SmallVarints()
    ensures Decode64([1, 2]) == Got(1, [2]) && Decode64([128]) == Fail && Abandoned([128]) == []
    ensures Decode32([2, 1, 2]) == Got(2, [1, 2])
  {
    hide Decode32From;
    assert [1, 2][..1] == [1] && [1, 2][1..] == [2];
    assert [128][1..] == [];
    assert [2, 1, 2][1..] == [1, 2];
  }

  /** The decoders an array of numbers can call. */
  method DecNumber(stream: IStream, f: Field) returns (ok: bool, v: Value)
    requires stream.Valid() && Packable(f.ltype)
    modifies stream
    ensures stream.Valid() && stream.End() == old(stream.End())
    ensures Reads(Wire.DecodeNumber(f.ltype, f.size, old(stream.Remaining())), ok, v, stream)
    ensures !ok ==> stream.Remaining() == Wire.FailedNumber(f.ltype, old(stream.Remaining()))
    decreases stream.bytesLeft, 0
  {
    hide Wire.DecodeNumber;
    if f.ltype.VarintT? {
      ok, v := DecVarint(stream, f);
    } else if f.ltype.UVarintT? {
      ok, v := DecUvarint(stream, f);
    } else if f.ltype.SVarintT? {
      ok, v := DecSvarint(stream, f);
    } else {
      ok, v := DecFixed(stream, f);
    }
  }

  /** decode_static_field */
  method DecodeStaticField(stream: IStream, wireType: nat, iter: FieldIter, dest: Struct) returns (ok: bool)
    requires stream.Valid() && iter.Valid() && iter.pos < |iter.fields| == |dest.slots| && ProperTags(iter.fields)
    modifies stream, dest
    ensures stream.Valid() && Confined(stream, ok) && |dest.slots| == |iter.fields|
    ensures Reads(Wire.DecodeSlot(iter.fields, iter.pos, old(dest.slots), wireType, old(stream.Remaining())), ok, dest.slots, stream)
    decreases stream.bytesLeft, 2
  {
    hide Decode32, Wire.DecodeValue, Wire.DecodePacked, DefaultValue;
    var i := iter.pos;
    var f := iter.fields[i];
    var slot := dest.slots[i];
    var v;
    match f.rule {
      case Required =>
        ok, v := DecValue(stream, f, Wire.Current(f, slot));
        dest.slots := dest.slots[i := Plain(v)];
      case Singular =>
        ok, v := DecValue(stream, f, Wire.Current(f, slot));
        dest.slots := dest.slots[i := Plain(v)];
      case Optional =>
        ok, v := DecValue(stream, f, Wire.Current(f, slot));
        dest.slots := dest.slots[i := Flagged(true, v)];
      case Repeated(max) =>
        var items := if slot.Items? then slot.items else [];
        if wireType == Wire.WT_STRING && Packable(f.ltype) {
          ok := DecodePackedField(stream, f, max, items, i, dest);
        } else {
          if |items| >= max { return false; }
          ok, v := DecValue(stream, f, DefaultValue(f));
          dest.slots := dest.slots[i := Items(items + [v])];
        }
      case Oneof(_) =>
        ok, v := DecValue(stream, f, DefaultValue(f));
        dest.slots := Wire.SelectArm(iter.fields, dest.slots, i, v);
    }
  }

  /** The packed branch of decode_static_field. */
  method DecodePackedField(stream: IStream, f: Field, max: nat, items: seq<Value>, i: nat, dest: Struct) returns (ok: bool)
    requires stream.Valid() && Packable(f.ltype) && f.rule.Repeated? && i < |dest.slots|
    modifies stream, dest
    ensures stream.Valid() && Confined(stream, ok) && |dest.slots| == old(|dest.slots|)
    ensures var p := Wire.TakeDelimited(old(stream.Remaining()));
            var all := if p.Got? then Wire.DecodePacked(f, max, items, p.value) else None;
            if ok then all.Some? && p.rest == stream.Remaining() && dest.slots == old(dest.slots)[i := Items(all.value)]
            else all.None?
    // a failed call has cut the stream short by the payload exactly if the loop left bytes of it
    ensures var p := Wire.TakeDelimited(old(stream.Remaining()));
            !ok ==> stream.End() == old(stream.End()) -
                    if p.Got? && Wire.PackedLoop(f, max, items, p.value).rest != [] then |p.value| else 0
    decreases stream.bytesLeft, 1
  {
    hide Decode32, Wire.DecodePacked, Wire.PackedLoop;
    Wire.DecodeBounds(stream.Remaining());
    var substream;
    ok, substream := stream.MakeSubstream();
    if !ok { return false; }
    var status, all := DecodePacked(substream, f, max, items);
    dest.slots := dest.slots[i := Items(all)];
    if substream.bytesLeft != 0 { return false; }
    stream.CloseSubstream(substream);
    return status;
  }

  /** pb_skip_field */
  method SkipField(stream: IStream, wireType: nat) returns (ok: bool)
    requires stream.Valid()
    modifies stream
    ensures stream.Valid() && Confined(stream, ok)
    ensures Reads(Wire.SkipField(wireType, old(stream.Remaining())), ok, (), stream)
  {
    hide Decode32, Span;
    var data;
    if wireType == Wire.WT_VARINT {
      ok := stream.SkipVarint();
    } else if wireType == Wire.WT_64BIT {
      ok, data := stream.Read(8);
    } else if wireType == Wire.WT_STRING {
      var length;
      ok, length := stream.DecodeVarint32();
      if !ok { return false; }
      ok, data := stream.Read(length);
    } else if wireType == Wire.WT_32BIT {
      ok, data := stream.Read(4);
    } else {
      ok := false;
    }
  }

  /** One turn of the loop of pb_decode_noinit after the tag. */
  method DecodeField(stream: IStream, tag: nat, wireType: nat, iter: FieldIter, dest: Struct, fieldsSeen: array<nat>, ghost seen: set<nat>)
    returns (ok: bool, ghost now: set<nat>)
    requires stream.Valid() && iter.Valid() && |iter.fields| == |dest.slots| && ProperTags(iter.fields)
    requires Tracked(iter.fields, fieldsSeen[..], seen)
    modifies stream, iter, dest, fieldsSeen
    ensures stream.Valid() && Confined(stream, ok) && iter.Valid() && |dest.slots| == |iter.fields|
    ensures Tracked(iter.fields, fieldsSeen[..], now)
    ensures Reads(Wire.DecodeField(iter.fields, Wire.Progress(old(dest.slots), seen), tag, wireType, old(stream.Remaining())),
                  ok, Wire.Progress(dest.slots, now), stream)
    decreases stream.bytesLeft, 3
  {
    hide Wire.DecodeSlot, Wire.SkipField, Wire.DecodeValue, Schema.Find, RequiredBefore, Holds;
    now := seen;
    var found := iter.Find(tag);
    if !found {
      ok := SkipField(stream, wireType);
      return;
    }
    if iter.fields == [] {
      // the terminator has no type a decoder could fill
      return false, now;
    }
    var f := iter.fields[iter.pos];
    if f.rule.Required? && iter.requiredFieldIndex < MAX_REQUIRED_FIELDS {
      RequiredMonotone(iter.fields, iter.pos);
      MarkSeen(fieldsSeen, iter.requiredFieldIndex, seen);
      now := seen + {iter.requiredFieldIndex};
    }
    assert now == seen + Wire.Mark(iter.fields, iter.pos);
    ok := DecodeStaticField(stream, wireType, iter, dest);
  }

  lemma {:induction false} RequiredMonotone(fields: seq<Field>, i: nat)
    requires i < |fields| && fields[i].rule.Required?
    ensures RequiredBefore(fields, i) < RequiredBefore(fields, |fields|)
  {
    RequiredGrows(fields, i + 1, |fields|);
  }

  /** The mask holds the required fields seen so far. */
  ghost predicate Tracked(fields: seq<Field>, words: seq<nat>, seen: set<nat>)
  {
    Holds(words, seen) && forall k :: k in seen ==> k < RequiredBefore(fields, |fields|)
  }

  /** pb_decode_noinit: the field loop and the check of the required fields. */
  method DecodeNoInit(stream: IStream, fields: seq<Field>, dest: Struct) returns (ok: bool)
    requires stream.Valid() && ProperTags(fields) && |dest.slots| == |fields|
    modifies stream, dest
    ensures stream.Valid() && Confined(stream, ok) && |dest.slots| == |fields|
    ensures Wire.DecodeMessage(fields, old(dest.slots), old(stream.Remaining())) == if ok then Some(dest.slots) else None
    ensures ok ==> Wire.DecodeLoop(fields, Wire.Progress(old(dest.slots), {}), old(stream.Remaining())).rest == stream.Remaining()
    decreases stream.bytesLeft, 4
  {
    hide Decode32, Wire.DecodeField, Wire.DecodeLoop, Holds, ProperTags, RequiredBefore, Wire.AllRequiredSeen;
    ghost var s, start := stream.Remaining(), Wire.Progress(dest.slots, {});
    var fieldsSeen := NoneSeen();
    TagsNonZero(fields);
    var iter := new FieldIter(fields, 0);
    ghost var seen: set<nat> := {};
    var more := true;
    while more && stream.bytesLeft != 0
      modifies stream, dest, iter, fieldsSeen
      invariant fresh(iter) && fresh(fieldsSeen) && iter.Valid() && iter.fields == fields && |dest.slots| == |fields|
      invariant stream.Valid() && stream.End() == old(stream.End()) && stream.bytesLeft <= old(stream.bytesLeft)
      invariant Tracked(fields, fieldsSeen[..], seen)
      invariant Wire.DecodeLoop(fields, start, s) ==
                if more then Wire.DecodeLoop(fields, Wire.Progress(dest.slots, seen), stream.Remaining())
                else Wire.Done(Wire.Progress(dest.slots, seen), stream.Remaining(), true)
      decreases stream.bytesLeft, more
    {
      LoopTurn(fields, Wire.Progress(dest.slots, seen), stream.Remaining());
      var read, temp := stream.DecodeVarint32();
      if !read { return false; }
      if temp == 0 {
        more := false;
      } else {
        var decoded;
        decoded, seen := DecodeField(stream, temp / 8, temp % 8, iter, dest, fieldsSeen, seen);
        if !decoded { return false; }
      }
    }
    LoopEnd(fields, Wire.Progress(dest.slots, seen));
    ok := CheckRequired(iter, fieldsSeen, seen);
  }

  /** One turn of the field loop. */
  lemma LoopTurn(fields: seq<Field>, p: Wire.Progress, s: seq<byte>)
    requires |p.slots| == |fields| && s != []
    ensures Decode32(s).Got? ==> |Decode32(s).rest| < |s|
    ensures Wire.DecodeLoop(fields, p, s) ==
            match Decode32(s)
            case Fail => Wire.Bad
            case Got(t, r) =>
              if t == 0 then Wire.Done(p, r, true)
              else
                match Wire.DecodeField(fields, p, t / 8, t % 8, r)
                case Fail => Wire.Bad
                case Got(q, r') => Wire.DecodeLoop(fields, q, r')
  {
    hide Decode32, Wire.DecodeField;
    Wire.DecodeBounds(s);
  }

  lemma LoopEnd(fields: seq<Field>, p: Wire.Progress)
    requires |p.slots| == |fields|
    ensures Wire.DecodeLoop(fields, p, []) == Wire.Done(p, [], false)
  {
  }

  lemma TagsNonZero(fields: seq<Field>)
    requires ProperTags(fields)
    ensures NonZeroTags(fields)
  {
  }

  /** uint32_t fields_seen[2] = {0, 0} */
  method NoneSeen() returns (fieldsSeen: array<nat>)
    ensures fresh(fieldsSeen) && Holds(fieldsSeen[..], {})
  {
    fieldsSeen := new nat[2];
    fieldsSeen[0], fieldsSeen[1] := 0, 0;
    forall w: nat, k: nat | w < 2 ensures !Bit(fieldsSeen[..][w], k) {
      ZeroBit(k);
    }
  }

  /** pb_decode */
  method Decode(stream: IStream, fields: seq<Field>, dest: Struct) returns (ok: bool)
    requires stream.Valid() && ProperTags(fields) && |dest.slots| == |fields|
    modifies stream, dest
    ensures stream.Valid() && Confined(stream, ok) && |dest.slots| == |fields|
    ensures Wire.DecodeMessage(fields, Defaults(fields), old(stream.Remaining())) == if ok then Some(dest.slots) else None
    decreases stream.bytesLeft, 5
  {
    MessageSetToDefaults(fields, dest);
    ok := DecodeNoInit(stream, fields, dest);
  }
}
