/**
 * Where messages stop being encodable or decodable (pb_encode.c, pb_decode.c): exactly which C values the
 * encoder takes, and that an array takes entries in either form up to its size and no more.
 */
module Limits {
  import opened Bytes
  import opened Varint
  import opened Schema
  import opened Wire
  import opened RoundTrip

  // ---------------------------------------------------------------- what can be encoded

  /** The limits the encoder checks for one value. A string may fill its array, unterminated. */
  predicate Encodable(f: Field, v: Value)
    decreases v, 0
  {
    match v
    case Num(n) => TypedNumber(f.ltype, f.size, n)
    case Blob(b) =>
      || (f.ltype.BytesT? && |b| + 4 <= f.size)
      || (f.ltype.StringT? && 0 !in b && |b| <= f.size)
      || (f.ltype.FixedBytesT? && |b| == f.size)
    case Sub(slots) => f.ltype.SubmessageT? && EncodableAll(f.ltype.fields, slots)
  }

  /** What is not sent is not looked at. */
  predicate EncodableSlot(f: Field, s: Slot)
    decreases s, 1
  {
    match s
    case Plain(v) => (f.rule.Required? && Encodable(f, v)) || (f.rule.Singular? && (IsDefault(f, v) || Encodable(f, v)))
    case Flagged(has, v) => f.rule.Optional? && (has ==> Encodable(f, v))
    case Items(items) => f.rule.Repeated? && |items| <= f.rule.max && forall v :: v in items ==> Encodable(f, v)
    case Chosen(v) => f.rule.Oneof? && Encodable(f, v)
    case Unchosen => f.rule.Oneof?
  }

  predicate EncodableAll(fields: seq<Field>, slots: seq<Slot>)
    decreases slots, 2
  {
    |fields| == |slots| && forall i :: 0 <= i < |slots| ==> EncodableSlot(fields[i], slots[i])
  }

  lemma {:induction false} ValueEncodesIff(f: Field, v: Value)
    ensures EncodeValue(f, v).Some? <==> Encodable(f, v)
    decreases v, 0
  {
    if v.Sub? && f.ltype.SubmessageT? { MessageEncodesIff(f.ltype.fields, v.slots); }
  }

  lemma {:induction false} ItemsEncodeIff(f: Field, items: seq<Value>)
    ensures EncodePacked(f, items).Some? <==> forall v :: v in items ==> Encodable(f, v)
    ensures EncodeUnpacked(f, items).Some? <==> forall v :: v in items ==> Encodable(f, v)
    decreases items, 1
  {
    hide Encodable, EncodeValue, Tag;
    if items != [] {
      ValueEncodesIff(f, items[0]);
      ItemsEncodeIff(f, items[1..]);
      assert items == [items[0]] + items[1..];
    }
  }

  lemma {:induction false} SlotEncodesIff(f: Field, s: Slot)
    ensures EncodeSlot(f, s).Some? <==> EncodableSlot(f, s)
    decreases s, 2
  {
    hide Encodable, EncodeValue, IsDefault;
    match s
    case Plain(v) => ValueEncodesIff(f, v);
    case Flagged(_, v) => ValueEncodesIff(f, v);
    case Items(items) => ItemsEncodeIff(f, items);
    case Chosen(v) => ValueEncodesIff(f, v);
    case Unchosen =>
  }

  /** A message has an encoding exactly if all that is sent is within its limits. */
  lemma {:induction false} MessageEncodesIff(fields: seq<Field>, slots: seq<Slot>)
    ensures EncodeMessage(fields, slots).Some? <==> EncodableAll(fields, slots)
    decreases slots, 3
  {
    hide EncodeSlot, EncodableSlot;
    if |fields| == |slots| > 0 {
      SlotEncodesIff(fields[0], slots[0]);
      MessageEncodesIff(fields[1..], slots[1..]);
      AllFromHead(fields, slots);
    }
  }

  lemma AllFromHead(fields: seq<Field>, slots: seq<Slot>)
    requires |fields| == |slots| > 0
    ensures EncodableAll(fields, slots) <==> EncodableSlot(fields[0], slots[0]) && EncodableAll(fields[1..], slots[1..])
  {
    hide EncodableSlot;
    if EncodableAll(fields, slots) {
      forall i | 0 <= i < |slots[1..]| ensures EncodableSlot(fields[1..][i], slots[1..][i]) {
        assert EncodableSlot(fields[i + 1], slots[i + 1]);
      }
    }
    if EncodableSlot(fields[0], slots[0]) && EncodableAll(fields[1..], slots[1..]) {
      forall i | 0 <= i < |slots| ensures EncodableSlot(fields[i], slots[i]) {
        if i > 0 { assert EncodableSlot(fields[1..][i - 1], slots[1..][i - 1]); }
      }
    }
  }

  // ---------------------------------------------------------------- arrays

  /** A packed array goes to the end of the entries so far exactly if there is room for all of it. */
  lemma {:induction false} PackedExactly(f: Field, max: nat, before: seq<Value>, items: seq<Value>)
    requires WellFormedField(f) && Packable(f.ltype) && forall v :: v in items ==> TypedValue(f, v)
    requires |before| <= max && EncodePacked(f, items).Some?
    ensures DecodePacked(f, max, before, EncodePacked(f, items).value) ==
            if |before| + |items| <= max then Some(before + items) else None
    decreases |items|
  {
    hide DecodeNumber, EncodeNumber, TypedNumber, WellFormedField, DecodePacked;
    if |before| + |items| <= max {
      PackedRoundTrip(f, max, before, items);
    } else {
      var v, rest := items[0], EncodePacked(f, items[1..]).value;
      assert TypedValue(f, v) && v.Num?;
      NumberNotEmpty(f, v.n);
      NumberRoundTrip(f, v.n, rest);
      var e := EncodeNumber(f, v.n).value;
      if |before| == max {
        PackedFull(f, max, before, e + rest);
      } else {
        PackedTurn(f, max, before, v, e, rest);
        PackedExactly(f, max, before + [v], items[1..]);
      }
    }
  }

  lemma PackedFull(f: Field, max: nat, before: seq<Value>, s: seq<byte>)
    requires s != [] && |before| >= max
    ensures DecodePacked(f, max, before, s) == None
  {
  }

  /** One entry with a tag of its own, of whatever type. */
  lemma EntryTurn(fields: seq<Field>, i: nat, p: Progress, v: Value, x: seq<byte>)
    requires WellFormed(fields) && i < |fields| == |p.slots| && p.slots[i].Items? && fields[i].rule.Repeated?
    requires var f := fields[i]; TypedValue(f, v) && EncodeValue(f, v).Some? && |EncodeValue(f, v).value| < MAX_ENCODING
    ensures var f := fields[i];
            DecodeLoop(fields, p, Tag(f.tag, WireType(f.ltype)) + EncodeValue(f, v).value + x) ==
            if |p.slots[i].items| < f.rule.max && Fits(f, v)
            then DecodeLoop(fields, p.(slots := p.slots[i := Items(p.slots[i].items + [Stored(f, v)])]), x)
            else Bad
  {
    hide DecodeLoop, EncodeValue, Tag, Fits, DecodeValue;
    var f := fields[i];
    assert WellFormedField(f);
    TaggedTurn(fields, i, p, WireType(f.ltype), EncodeValue(f, v).value, x);
    ValueRoundTrip(f, v, x);
    assert p.seen + Mark(fields, i) == p.seen;
  }

  /** Entries with a tag each, as the encoder writes those that cannot be packed and as any peer may write
    * numbers, are appended exactly if there is room for all of them. */
  lemma {:induction false} EntriesExactly(fields: seq<Field>, i: nat, p: Progress, items: seq<Value>, x: seq<byte>)
    requires WellFormed(fields) && i < |fields| == |p.slots| && p.slots[i].Items? && fields[i].rule.Repeated?
    requires |p.slots[i].items| <= fields[i].rule.max && forall v :: v in items ==> TypedValue(fields[i], v)
    requires EncodeUnpacked(fields[i], items).Some? && |EncodeUnpacked(fields[i], items).value| < MAX_ENCODING
    ensures var f, have := fields[i], p.slots[i].items;
            DecodeLoop(fields, p, EncodeUnpacked(f, items).value + x) ==
            if |have| + |items| <= f.rule.max && forall v :: v in items ==> Fits(f, v)
            then DecodeLoop(fields, p.(slots := p.slots[i := Items(have + StoredItems(f, items))]), x)
            else Bad
    decreases |items|
  {
    hide DecodeLoop, EncodeValue, Tag, Fits, WellFormed, WellFormedField, TypedValue, StoredItems, Stored;
    var f := fields[i];
    if items == [] {
      NoneStored(f);
      assert [] + x == x;
      assert p.slots[i].items + [] == p.slots[i].items;
      assert p.slots[i := Items(p.slots[i].items)] == p.slots;
    } else {
      var v, e, tail := items[0], EncodeValue(f, items[0]).value, EncodeUnpacked(f, items[1..]).value;
      assert EncodeUnpacked(f, items).value + x == Tag(f.tag, WireType(f.ltype)) + e + (tail + x);
      EntryTurn(fields, i, p, v, tail + x);
      assert v in items && items == [v] + items[1..];
      if Fits(f, v) && |p.slots[i].items| < f.rule.max {
        var q := p.(slots := p.slots[i := Items(p.slots[i].items + [Stored(f, v)])]);
        EntriesExactly(fields, i, q, items[1..], x);
        EntryStored(f, p.slots, i, items);
      }
    }
  }

  lemma NoneStored(f: Field)
    ensures StoredItems(f, []) == []
  {
  }

  /** One entry and then the others. */
  lemma EntryStored(f: Field, slots: seq<Slot>, i: nat, items: seq<Value>)
    requires i < |slots| && slots[i].Items? && items != []
    ensures var have := slots[i].items;
            var first := have + [Stored(f, items[0])];
            slots[i := Items(first)][i := Items(first + StoredItems(f, items[1..]))] == slots[i := Items(have + StoredItems(f, items))]
  {
    hide Stored;
    var have, first := slots[i].items, slots[i].items + [Stored(f, items[0])];
    assert StoredItems(f, items) == [Stored(f, items[0])] + StoredItems(f, items[1..]);
    assert first + StoredItems(f, items[1..]) == have + StoredItems(f, items);
  }

  // ---------------------------------------------------------------- required fields

  /** A message that lacks one required field is rejected exactly if that is one of the first 64. */
  lemma FirstRequiredTracked(fields: seq<Field>, seen: set<nat>, k: nat)
    requires k < RequiredBefore(fields, |fields|)
    requires forall j: nat :: j < RequiredBefore(fields, |fields|) && j < 64 && j != k ==> j in seen
    requires k !in seen
    ensures AllRequiredSeen(fields, seen) <==> k >= 64
  {
    if k < 64 { assert k < MAX_REQUIRED_FIELDS; }
  }

  /** Nothing but the first 64 required fields is ever marked, and a mark is never taken back. */
  lemma {:induction false} SeenAreRequired(fields: seq<Field>, p: Progress, s: seq<byte>)
    requires |p.slots| == |fields| && DecodeLoop(fields, p, s).Done?
    requires forall k :: k in p.seen ==> k < 64 && k < RequiredBefore(fields, |fields|)
    ensures p.seen <= DecodeLoop(fields, p, s).p.seen
    ensures forall k :: k in DecodeLoop(fields, p, s).p.seen ==> k < 64 && k < RequiredBefore(fields, |fields|)
    decreases |s|
  {
    hide Decode32, DecodeSlot, SkipField, Find;
    DecodeBounds(s);
    if s != [] {
      var Got(t, r) := Decode32(s);
      if t != 0 {
        var Got(q, r') := DecodeField(fields, p, t / 8, t % 8, r);
        var at := Find(fields, t / 8);
        if at.Some? { MarkInRange(fields, at.value); }
        SeenAreRequired(fields, q, r');
      }
    }
  }

  lemma MarkInRange(fields: seq<Field>, i: nat)
    requires i < |fields|
    ensures forall k :: k in Mark(fields, i) ==> k < 64 && k < RequiredBefore(fields, |fields|)
  {
    if fields[i].rule.Required? { RequiredGrows(fields, i + 1, |fields|); }
  }
}
