/**
 * Fields that a table does not know (pb_skip_field in pb_decode.c): whatever the encoder writes for a
 * field, the decoder of another message type skips it exactly.
 */
module Skipping {
  import opened Bytes
  import opened Varint
  import opened Schema
  import opened Wire
  import opened RoundTrip
  import C = Confinement

  /** The outermost length prefix of the value is a 32-bit number; what is inside is not looked at. */
  predicate OuterFits(f: Field, v: Value)
  {
    v.Sub? ==> f.ltype.SubmessageT? && Short(EncodeMessage(f.ltype.fields, v.slots))
  }

  predicate OuterFitsSlot(f: Field, s: Slot)
  {
    match s
    case Plain(v) => (f.rule.Singular? && IsDefault(f, v)) || OuterFits(f, v)
    case Flagged(has, v) => has ==> OuterFits(f, v)
    case Items(items) =>
      if Packable(f.ltype) then Short(EncodePacked(f, items)) else forall v :: v in items ==> OuterFits(f, v)
    case Chosen(v) => OuterFits(f, v)
    case Unchosen => true
  }

  // ---------------------------------------------------------------- one payload

  lemma SpanOfVarint(n: nat, x: seq<byte>)
    requires n < 0x1_0000_0000_0000_0000
    ensures SkipField(WT_VARINT, Encode(n) + x) == Got((), x)
  {
    hide Encode, Groups;
    EncodeShape(n, x);
    var e := Encode(n);
    assert (e + x)[|e|..] == x;
  }

  lemma SkipsNumber(f: Field, n: int, x: seq<byte>)
    requires TypedNumber(f.ltype, f.size, n)
    ensures SkipField(WireType(f.ltype), EncodeNumber(f, n).value + x) == Got((), x)
  {
    hide Encode, LittleEndian, Span, TakeDelimited;
    match f.ltype {
      case VarintT => SpanOfVarint(U64(n), x);
      case UVarintT => SpanOfVarint(n, x);
      case SVarintT =>
        ZigzagInverse(n);
        SpanOfVarint(Zigzag(n), x);
      case Fixed32T => assert (LittleEndian(n, 4) + x)[4..] == x;
      case Fixed64T => assert (LittleEndian(n, 8) + x)[8..] == x;
    }
  }

  lemma SkipsDelimited(s: seq<byte>, x: seq<byte>)
    requires |s| < MAX_ENCODING
    ensures SkipField(WT_STRING, Delimited(s) + x) == if |s| < 0x1_0000_0000 then Got((), x) else Fail
  {
    hide Delimited, TakeDelimited;
    DelimitedRead(s, x);
  }

  /** What the encoder writes for a value is skipped exactly, or rejected when its length prefix
    * exceeds 32 bits. */
  lemma SkipsValue(f: Field, v: Value, x: seq<byte>)
    requires WellFormedField(f) && TypedValue(f, v)
    requires EncodeValue(f, v).Some? && |EncodeValue(f, v).value| < MAX_ENCODING
    ensures SkipField(WireType(f.ltype), EncodeValue(f, v).value + x) == if OuterFits(f, v) then Got((), x) else Fail
  {
    hide SkipField, EncodeMessage, EncodeNumber, Encode;
    match v {
      case Num(n) => SkipsNumber(f, n, x);
      case Blob(b) => SkipsDelimited(b, x);
      case Sub(slots) => SkipsDelimited(EncodeMessage(f.ltype.fields, slots).value, x);
    }
  }

  /** Anything else fails: a value that is cut off, and the wire types 3, 4, 6 and 7. */
  lemma SkipsIff(wireType: nat, s: seq<byte>)
    ensures SkipField(wireType, s).Got? <==>
            match wireType
            case 0 => exists i :: 0 <= i < |s| && s[i] < 128
            case 1 => |s| >= 8
            case 2 => Decode32(s).Got? && Decode32(s).value <= |Decode32(s).rest|
            case 5 => |s| >= 4
            case _ => false
  {
    hide Decode32;
  }

  // ---------------------------------------------------------------- one field

  /** A tagged payload of a field the table does not have is one turn of the field loop. */
  lemma UnknownTagTurn(fields: seq<Field>, p: Progress, tag: nat, wireType: nat, e: seq<byte>, x: seq<byte>)
    requires |p.slots| == |fields| && 0 < tag < 0x2000_0000 && wireType < 8 && Find(fields, tag).None?
    ensures DecodeLoop(fields, p, Tag(tag, wireType) + e + x) ==
            if SkipField(wireType, e + x).Got? then DecodeLoop(fields, p, SkipField(wireType, e + x).rest) else Bad
  {
    hide Decode32, Encode, SkipField, Find;
    var t := tag * 8 + wireType;
    assert Tag(tag, wireType) + e + x == Encode(t) + (e + x);
    RoundTrip32(t, e + x);
    assert t / 8 == tag && t % 8 == wireType;
    assert Encode(t) + (e + x) != [];
  }

  lemma SkipsTagged(fields: seq<Field>, p: Progress, f: Field, v: Value, x: seq<byte>)
    requires |p.slots| == |fields| && Find(fields, f.tag).None? && WellFormedField(f) && TypedValue(f, v)
    requires EncodeTagged(f, v).Some? && |EncodeTagged(f, v).value| < MAX_ENCODING
    ensures DecodeLoop(fields, p, EncodeTagged(f, v).value + x) == if OuterFits(f, v) then DecodeLoop(fields, p, x) else Bad
  {
    hide DecodeLoop, EncodeValue, SkipField, Tag, OuterFits, Find;
    SkipsValue(f, v, x);
    UnknownTagTurn(fields, p, f.tag, WireType(f.ltype), EncodeValue(f, v).value, x);
  }

  lemma {:induction false} SkipsItems(fields: seq<Field>, p: Progress, f: Field, items: seq<Value>, x: seq<byte>)
    requires |p.slots| == |fields| && Find(fields, f.tag).None? && WellFormedField(f) && forall v :: v in items ==> TypedValue(f, v)
    requires EncodeUnpacked(f, items).Some? && |EncodeUnpacked(f, items).value| < MAX_ENCODING
    ensures DecodeLoop(fields, p, EncodeUnpacked(f, items).value + x) ==
            if forall v :: v in items ==> OuterFits(f, v) then DecodeLoop(fields, p, x) else Bad
  {
    hide DecodeLoop, EncodeTagged, OuterFits, Find, WellFormedField, TypedValue;
    if items == [] {
      assert [] + x == x;
    } else {
      var e, rest := EncodeTagged(f, items[0]).value, EncodeUnpacked(f, items[1..]).value;
      assert items[0] in items && items == [items[0]] + items[1..];
      assert EncodeUnpacked(f, items).value + x == e + (rest + x);
      SkipsTagged(fields, p, f, items[0], rest + x);
      SkipsItems(fields, p, f, items[1..], x);
    }
  }

  /** So is a field of any rule. */
  lemma SkipsSlot(fields: seq<Field>, p: Progress, f: Field, s: Slot, x: seq<byte>)
    requires |p.slots| == |fields| && Find(fields, f.tag).None? && WellFormedField(f) && TypedSlot(f, s)
    requires EncodeSlot(f, s).Some? && |EncodeSlot(f, s).value| < MAX_ENCODING
    ensures DecodeLoop(fields, p, EncodeSlot(f, s).value + x) == if OuterFitsSlot(f, s) then DecodeLoop(fields, p, x) else Bad
  {
    hide DecodeLoop, EncodeTagged, OuterFits, Find, WellFormedField, TypedValue, IsDefault, SkipField, Tag, Encode;
    assert [] + x == x;
    match s {
      case Plain(v) => if !(f.rule.Singular? && IsDefault(f, v)) { SkipsTagged(fields, p, f, v, x); }
      case Flagged(has, v) => if has { SkipsTagged(fields, p, f, v, x); }
      case Items(items) =>
        if items == [] {
        } else if Packable(f.ltype) {
          var body := EncodePacked(f, items).value;
          TagInRange(f);
          SkipsDelimited(body, x);
          UnknownTagTurn(fields, p, f.tag, WT_STRING, Delimited(body), x);
        } else {
          SkipsItems(fields, p, f, items, x);
        }
      case Chosen(v) => SkipsTagged(fields, p, f, v, x);
      case Unchosen =>
    }
  }

  lemma TagInRange(f: Field)
    requires WellFormedField(f)
    ensures 0 < f.tag < 0x2000_0000
  {
  }

  // ---------------------------------------------------------------- whole messages

  predicate Disjoint(fields: seq<Field>, other: seq<Field>)
  {
    forall i :: 0 <= i < |other| ==> Find(fields, other[i].tag).None?
  }

  predicate OuterFitsAll(fields: seq<Field>, slots: seq<Slot>)
    requires |fields| == |slots|
  {
    forall i :: 0 <= i < |fields| ==> OuterFitsSlot(fields[i], slots[i])
  }

  /** Decoding a message of a type with other tags leaves the destination alone and goes on behind it,
    * or fails when one of its outer length prefixes exceeds 32 bits. */
  lemma {:induction false} SkipsMessage(fields: seq<Field>, p: Progress, other: seq<Field>, slots: seq<Slot>, x: seq<byte>)
    requires |p.slots| == |fields| && Disjoint(fields, other) && |other| == |slots|
    requires forall i :: 0 <= i < |other| ==> WellFormedField(other[i]) && TypedSlot(other[i], slots[i])
    requires EncodeMessage(other, slots).Some? && |EncodeMessage(other, slots).value| < MAX_ENCODING
    ensures DecodeLoop(fields, p, EncodeMessage(other, slots).value + x) ==
            if OuterFitsAll(other, slots) then DecodeLoop(fields, p, x) else Bad
    decreases |other|
  {
    hide DecodeLoop, EncodeSlot, OuterFitsSlot, Find, WellFormedField, TypedSlot;
    if other == [] {
      assert [] + x == x;
    } else {
      var e, rest := EncodeSlot(other[0], slots[0]).value, EncodeMessage(other[1..], slots[1..]).value;
      assert EncodeMessage(other, slots).value + x == e + (rest + x);
      assert forall i :: 0 <= i < |other[1..]| ==> other[1..][i] == other[i + 1] && slots[1..][i] == slots[i + 1];
      SkipsSlot(fields, p, other[0], slots[0], rest + x);
      SkipsMessage(fields, p, other[1..], slots[1..], x);
      FitsHead(other, slots);
    }
  }

  lemma FitsHead(fields: seq<Field>, slots: seq<Slot>)
    requires |fields| == |slots| > 0
    ensures OuterFitsAll(fields, slots) <==> OuterFitsSlot(fields[0], slots[0]) && OuterFitsAll(fields[1..], slots[1..])
  {
    hide OuterFitsSlot;
    if OuterFitsSlot(fields[0], slots[0]) && OuterFitsAll(fields[1..], slots[1..]) {
      forall i | 0 <= i < |fields| ensures OuterFitsSlot(fields[i], slots[i]) {
        if i > 0 { assert OuterFitsSlot(fields[1..][i - 1], slots[1..][i - 1]); }
      }
    }
    if OuterFitsAll(fields, slots) {
      forall i | 0 <= i < |fields[1..]| ensures OuterFitsSlot(fields[1..][i], slots[1..][i]) {
        assert OuterFitsSlot(fields[i + 1], slots[i + 1]);
      }
    }
  }

  /** A message that a newer sender has written with more fields, in any place: an older receiver gets
    * what it would have got without them. */
  lemma NewFieldsSkipped(fields: seq<Field>, slots: seq<Slot>, a: seq<byte>, other: seq<Field>, more: seq<Slot>, b: seq<byte>)
    requires |slots| == |fields| && Disjoint(fields, other) && |other| == |more|
    requires forall i :: 0 <= i < |other| ==> WellFormedField(other[i]) && TypedSlot(other[i], more[i])
    requires EncodeMessage(other, more).Some? && |EncodeMessage(other, more).value| < MAX_ENCODING && OuterFitsAll(other, more)
    requires DecodeLoop(fields, Progress(slots, {}), a).Done? && !DecodeLoop(fields, Progress(slots, {}), a).stopped
    ensures DecodeMessage(fields, slots, a + (EncodeMessage(other, more).value + b)) == DecodeMessage(fields, slots, a + b)
  {
    hide DecodeLoop, EncodeMessage, OuterFitsAll, Disjoint;
    var p := DecodeLoop(fields, Progress(slots, {}), a).p;
    C.LeftFold(fields, Progress(slots, {}), a, EncodeMessage(other, more).value + b);
    C.LeftFold(fields, Progress(slots, {}), a, b);
    SkipsMessage(fields, p, other, more, b);
  }
}
