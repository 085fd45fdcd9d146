/**
 * pb_decode inverts pb_encode: for every well-formed descriptor table and every typed message, the
 * encoding decodes to the same observable message, exactly when every length prefix fits 32 bits.
 */
module RoundTrip {
  import opened Bytes
  import opened Varint
  import opened Schema
  import opened Wire

  // ---------------------------------------------------------------- observable content

  /** The observable content of a value: data behind a false has_ flag reads as its default. */
  function Stored(f: Field, v: Value): Value
    decreases v, 0
  {
    match v
    case Sub(slots) => if f.ltype.SubmessageT? then Sub(StoredAll(f.ltype.fields, slots)) else v
    case _ => v
  }

  function StoredItems(f: Field, items: seq<Value>): (r: seq<Value>)
    ensures |r| == |items|
    decreases items, 0
  {
    if items == [] then [] else [Stored(f, items[0])] + StoredItems(f, items[1..])
  }

  function StoredSlot(f: Field, s: Slot): Slot
    decreases s, 0
  {
    match s
    case Plain(v) => Plain(Stored(f, v))
    case Flagged(has, v) => Flagged(has, if has then Stored(f, v) else DefaultValue(f))
    case Items(items) => Items(StoredItems(f, items))
    case Chosen(v) => Chosen(Stored(f, v))
    case Unchosen => Unchosen
  }

  function StoredAll(fields: seq<Field>, slots: seq<Slot>): (r: seq<Slot>)
    ensures |r| == |slots|
    ensures forall i :: 0 <= i < |slots| && i < |fields| ==> r[i] == StoredSlot(fields[i], slots[i])
    decreases slots, 0
  {
    if slots == [] then []
    else if fields == [] then slots
    else [StoredSlot(fields[0], slots[0])] + StoredAll(fields[1..], slots[1..])
  }

  // ---------------------------------------------------------------- length prefixes

  predicate Short(e: Option<seq<byte>>)
  {
    e.Some? && |e.value| < 0x1_0000_0000
  }

  /** Every length prefix in the value's encoding is a 32-bit number. */
  predicate Fits(f: Field, v: Value)
    decreases v, 0
  {
    match v
    case Sub(slots) =>
      f.ltype.SubmessageT? && Short(EncodeMessage(f.ltype.fields, slots)) && FitsAll(f.ltype.fields, slots)
    case _ => true
  }

  predicate FitsSlot(f: Field, s: Slot)
    decreases s, 0
  {
    match s
    case Plain(v) => (f.rule.Singular? && IsDefault(f, v)) || Fits(f, v)
    case Flagged(has, v) => has ==> Fits(f, v)
    case Items(items) =>
      if Packable(f.ltype) then Short(EncodePacked(f, items)) else forall v :: v in items ==> Fits(f, v)
    case Chosen(v) => Fits(f, v)
    case Unchosen => true
  }

  predicate FitsAll(fields: seq<Field>, slots: seq<Slot>)
    decreases slots, 0
  {
    forall i :: 0 <= i < |slots| && i < |fields| ==> FitsSlot(fields[i], slots[i])
  }

  const MAX_ENCODING: nat := 0x8000_0000_0000_0000  // no object is larger

  // ---------------------------------------------------------------- scalars

  lemma {:induction false} LittleEndianInverse(v: nat, n: nat)
    requires v < Pow2(8 * n)
    ensures FromLittleEndian(LittleEndian(v, n)) == v
  {
    if n == 0 {
      assert Pow2(0) == 1;
    } else {
      Pow2Step7(8 * n - 8);
      assert Pow2(8 * n) == 2 * Pow2(8 * n - 1) == 256 * Pow2(8 * (n - 1));
      LittleEndianInverse(v / 256, n - 1);
      var s := LittleEndian(v, n);
      assert s[1..] == LittleEndian(v / 256, n - 1);
    }
  }

  lemma FixedWidth(n: nat, width: nat, x: seq<byte>)
    requires (width == 4 && n < 0x1_0000_0000) || (width == 8 && n < 0x1_0000_0000_0000_0000)
    ensures Take(LittleEndian(n, width) + x, width) == Got(LittleEndian(n, width), x)
    ensures FromLittleEndian(LittleEndian(n, width)) == n
  {
    hide LittleEndian, FromLittleEndian;
    WordWidths();
    LittleEndianInverse(n, width);
    var e := LittleEndian(n, width);
    assert (e + x)[..width] == e && (e + x)[width..] == x;
  }

  lemma WordWidths()
    ensures Pow2(32) == 0x1_0000_0000 && Pow2(64) == 0x1_0000_0000_0000_0000
  {
    Pow2Literals();
    assert Pow2(32) == 2 * Pow2(31) == 4 * Pow2(30) == 8 * Pow2(29) == 16 * Pow2(28);
    assert Pow2(64) == 2 * Pow2(63);
  }

  /** Narrowing a typed number back to its own width loses nothing. */
  lemma SignedFits(n: int, size: nat)
    requires IntegerSize(size) && -(Modulus(size) / 2) <= n < Modulus(size) / 2
    ensures Signed(n, Modulus(size)) == n
    ensures size == 8 ==> Signed(U64(n), 0x1_0000_0000_0000_0000) == n
    ensures size != 8 ==> Signed(U64(n), 0x1_0000_0000) == n
  {
    if size == 8 {
      WordFits(n);
    } else if size == 4 {
      HalfWordFits(n);
    } else if size == 2 {
      HalfWordFits(n);
      ShortFits(n);
    } else {
      HalfWordFits(n);
      ByteFits(n);
    }
  }

  lemma WordFits(n: int)
    requires -0x8000_0000_0000_0000 <= n < 0x8000_0000_0000_0000
    ensures Signed(n, 0x1_0000_0000_0000_0000) == n && Signed(U64(n), 0x1_0000_0000_0000_0000) == n
  {
  }

  lemma HalfWordFits(n: int)
    requires -0x8000_0000 <= n < 0x8000_0000
    ensures Signed(n, 0x1_0000_0000) == n && Signed(U64(n), 0x1_0000_0000) == n
  {
    assert U64(n) == if n < 0 then n + 0x1_0000_0000_0000_0000 else n;
  }

  lemma ShortFits(n: int)
    requires -0x8000 <= n < 0x8000
    ensures Signed(n, 0x1_0000) == n
  {
  }

  lemma ByteFits(n: int)
    requires -0x80 <= n < 0x80
    ensures Signed(n, 0x100) == n
  {
  }

  lemma NumberRoundTrip(f: Field, n: int, x: seq<byte>)
    requires TypedNumber(f.ltype, f.size, n)
    ensures EncodeNumber(f, n).Some?
    ensures DecodeNumber(f.ltype, f.size, EncodeNumber(f, n).value + x) == Got(Num(n), x)
  {
    hide Decode64, Encode, Signed, Zigzag, Unzigzag, LittleEndian, FromLittleEndian;
    match f.ltype {
      case VarintT =>
        RoundTrip64(U64(n), x);
        SignedFits(n, f.size);
      case UVarintT =>
        RoundTrip64(n, x);
      case SVarintT =>
        ZigzagInverse(n);
        RoundTrip64(Zigzag(n), x);
        SignedFits(n, f.size);
      case Fixed32T =>
        FixedWidth(n, 4, x);
      case Fixed64T =>
        FixedWidth(n, 8, x);
    }
  }

  /** A length prefix below 2^63 is read back exactly when it fits 32 bits. */
  lemma PrefixRead(n: nat, x: seq<byte>)
    requires n < 0x8000_0000_0000_0000
    ensures Decode32(Encode(n) + x) == if n < 0x1_0000_0000 then Got(n, x) else Fail
  {
    hide Decode32, Encode, Verdict32;
    Accept32(n, x);
    if n < 0x1_0000_0000 {
      VerdictSmall(n, x);
    } else {
      VerdictLarge(n, x);
    }
  }

  lemma VerdictLarge(n: nat, x: seq<byte>)
    requires 0x1_0000_0000 <= n < 0x8000_0000_0000_0000
    ensures Verdict32(n, x) == Fail
  {
    TooShortForSign(n / 0x8_0000_0000, 5);
  }

  /** Sign extension needs bit 63. */
  lemma {:induction false} TooShortForSign(w: nat, k: nat)
    requires 5 <= k <= 9 && 2 * w < Room(k)
    ensures !SignGroups(w, k)
    decreases 9 - k
  {
    if k < 9 {
      TooShortForSign(w / 128, k + 1);
    }
  }

  lemma DelimitedRead(s: seq<byte>, x: seq<byte>)
    requires |s| < 0x8000_0000_0000_0000
    ensures TakeDelimited(Delimited(s) + x) == if |s| < 0x1_0000_0000 then Got(s, x) else Fail
    ensures Decode32(Delimited(s) + x) == if |s| < 0x1_0000_0000 then Got(|s|, s + x) else Fail
  {
    hide Decode32, Encode;
    PrefixRead(|s|, s + x);
    assert Delimited(s) + x == Encode(|s|) + (s + x);
    assert (s + x)[..|s|] == s && (s + x)[|s|..] == x;
  }

  lemma {:induction false} CStringWhole(b: seq<byte>)
    requires 0 !in b
    ensures CString(b) == b
  {
    if b != [] {
      CStringWhole(b[1..]);
    }
  }

  lemma BlobRoundTrip(f: Field, b: seq<byte>, x: seq<byte>)
    requires TypedValue(f, Blob(b)) && f.size < 0x1_0000_0000
    ensures EncodeValue(f, Blob(b)) == Some(Delimited(b))
    ensures DecodeBlob(f, Delimited(b) + x) == Got(Blob(b), x)
  {
    hide Decode32, Delimited, CString;
    DelimitedRead(b, x);
    assert (b + x)[..|b|] == b && (b + x)[|b|..] == x;
    if f.ltype.StringT? {
      CStringWhole(b);
    } else if f.ltype.FixedBytesT? && b == [] {
      assert Zeros(0) == [];
    }
  }

  // ---------------------------------------------------------------- fields that are not sent

  /** What pb_check_proto3_default_value skips is what the decoder starts from. */
  lemma {:induction false} DefaultIsStored(f: Field, v: Value)
    requires WellFormedField(f) && TypedValue(f, v) && IsDefault(f, v)
    requires f.rule.Singular? || v.Sub?
    ensures Stored(f, v) == DefaultValue(f)
    decreases v, 0
  {
    match v
    case Sub(slots) =>
      DefaultsAreStored(f.ltype.fields, slots);
    case Num(_) =>
      assert TypedValue(f, f.dflt);
    case Blob(b) =>
      assert TypedValue(f, f.dflt);
      assert b == [];
  }

  lemma {:induction false} SlotDefaultIsStored(f: Field, s: Slot)
    requires WellFormedField(f) && TypedSlot(f, s) && IsDefaultSlot(f, s)
    ensures StoredSlot(f, s) == DefaultSlot(f)
    decreases s, 1
  {
    match s
    case Plain(v) => DefaultIsStored(f, v);
    case _ =>
  }

  lemma {:induction false} DefaultsAreStored(fields: seq<Field>, slots: seq<Slot>)
    requires WellFormed(fields) && TypedMessage(fields, slots) && AllDefault(fields, slots)
    ensures StoredAll(fields, slots) == Defaults(fields)
    decreases slots, 2
  {
    forall i | 0 <= i < |slots| ensures StoredSlot(fields[i], slots[i]) == DefaultSlot(fields[i]) {
      var f, s := fields[i], slots[i];
      assert WellFormedField(f) && TypedSlot(f, s) && IsDefaultSlot(f, s);
      SlotDefaultIsStored(f, s);
    }
  }

  // ---------------------------------------------------------------- one field on the wire

  /** A tagged value at the front of the input is one turn of the field loop. */
  lemma TaggedTurn(fields: seq<Field>, i: nat, p: Progress, wireType: nat, e: seq<byte>, x: seq<byte>)
    requires WellFormed(fields) && i < |fields| == |p.slots| && wireType < 8
    ensures DecodeLoop(fields, p, Tag(fields[i].tag, wireType) + e + x) ==
            match DecodeSlot(fields, i, p.slots, wireType, e + x)
            case Fail => Bad
            case Got(slots, r) => DecodeLoop(fields, Progress(slots, p.seen + Mark(fields, i)), r)
  {
    hide Decode32, Encode, DecodeSlot;
    var f := fields[i];
    assert WellFormedField(f);
    var t := f.tag * 8 + wireType;
    var s := Tag(f.tag, wireType) + e + x;
    assert s == Encode(t) + (e + x);
    RoundTrip32(t, e + x);
    assert t / 8 == f.tag && t % 8 == wireType;
    FindByTag(fields, i);
  }

  lemma FindByTag(fields: seq<Field>, i: nat)
    requires DistinctTags(fields) && i < |fields|
    ensures Find(fields, fields[i].tag) == Some(i)
  {
    var t := fields[i].tag;
    var r := Find(fields, t);
    assert r.Some?;
    assert fields[r.value].tag == fields[i].tag;
  }

  /** The decoder's state after the field's data has been stored. */
  function After(fields: seq<Field>, i: nat, p: Progress, s: Slot): Progress
    requires i < |fields| == |p.slots|
  {
    Progress(p.slots[i := StoredSlot(fields[i], s)],
             if fields[i].rule.Required? then p.seen + Mark(fields, i) else p.seen)
  }

  /** No other member of the field's union is selected. */
  predicate UnionFree(fields: seq<Field>, i: nat, slots: seq<Slot>)
    requires i < |fields| == |slots|
  {
    fields[i].rule.Oneof? ==>
      forall j :: 0 <= j < |fields| && fields[j].rule == fields[i].rule ==> slots[j] == Unchosen
  }

  // ---------------------------------------------------------------- values, fields, messages

  /** A field's encoding in front of x is decoded to its observable content, or is rejected when
    * one of its length prefixes exceeds 32 bits. */
  lemma {:induction false} ValueRoundTrip(f: Field, v: Value, x: seq<byte>)
    requires WellFormedField(f) && TypedValue(f, v)
    requires EncodeValue(f, v).Some? && |EncodeValue(f, v).value| < MAX_ENCODING
    ensures DecodeValue(f, DefaultValue(f), EncodeValue(f, v).value + x) ==
            if Fits(f, v) then Got(Stored(f, v), x) else Fail
    decreases v, 0
  {
    hide Decode32, Encode, DecodeLoop, EncodeMessage, FitsAll, DecodeNumber, EncodeNumber, DecodeBlob;
    match v {
      case Num(n) =>
        NumberRoundTrip(f, n, x);
      case Blob(b) =>
        BlobRoundTrip(f, b, x);
      case Sub(slots) =>
        var fields := f.ltype.fields;
        var body := EncodeMessage(fields, slots).value;
        DelimitedRead(body, x);
        MessageRoundTrip(fields, slots);
    }
  }

  lemma {:induction false} PackedRoundTrip(f: Field, max: nat, before: seq<Value>, items: seq<Value>)
    requires WellFormedField(f) && Packable(f.ltype) && forall v :: v in items ==> TypedValue(f, v)
    requires |before| + |items| <= max && EncodePacked(f, items).Some?
    ensures DecodePacked(f, max, before, EncodePacked(f, items).value) == Some(before + items)
    ensures StoredItems(f, items) == items
    ensures items != [] ==> EncodePacked(f, items).value != []
    decreases items, 1
  {
    hide DecodeNumber, EncodeNumber, TypedNumber, WellFormedField, DecodePacked, StoredItems;
    NumbersStored(f, items);
    if items == [] {
      PackedNone(f, max, before);
      assert before + items == before;
    } else {
      var v, rest := items[0], EncodePacked(f, items[1..]).value;
      assert TypedValue(f, v) && v.Num?;
      NumberRoundTrip(f, v.n, rest);
      NumberNotEmpty(f, v.n);
      PackedRoundTrip(f, max, before + [v], items[1..]);
      assert before + [v] + items[1..] == before + items;
      PackedTurn(f, max, before, v, EncodeNumber(f, v.n).value, rest);
    }
  }

  lemma PackedNone(f: Field, max: nat, before: seq<Value>)
    ensures DecodePacked(f, max, before, []) == Some(before)
  {
  }

  lemma {:induction false} NumbersStored(f: Field, items: seq<Value>)
    requires Packable(f.ltype) && forall v :: v in items ==> TypedValue(f, v)
    ensures StoredItems(f, items) == items
  {
    hide TypedNumber;
    if items != [] {
      assert TypedValue(f, items[0]);
      NumbersStored(f, items[1..]);
    }
  }

  /** One turn of the loop over a packed array. */
  lemma PackedTurn(f: Field, max: nat, before: seq<Value>, v: Value, e: seq<byte>, rest: seq<byte>)
    requires Packable(f.ltype) && |before| < max && |e| > 0
    requires DecodeNumber(f.ltype, f.size, e + rest) == Got(v, rest)
    ensures DecodePacked(f, max, before, e + rest) == DecodePacked(f, max, before + [v], rest)
  {
    hide DecodeNumber, Decode64, Decode32;
    assert DecodeValue(f, DefaultValue(f), e + rest) == Got(v, rest);
  }

  lemma NumberNotEmpty(f: Field, n: int)
    requires EncodeNumber(f, n).Some?
    ensures |EncodeNumber(f, n).value| > 0
  {
  }

  lemma {:induction false} UnpackedRoundTrip(fields: seq<Field>, i: nat, p: Progress, items: seq<Value>, x: seq<byte>)
    requires WellFormed(fields) && i < |fields| == |p.slots| && p.slots[i].Items?
    requires var f := fields[i];
             && f.rule.Repeated? && !Packable(f.ltype)
             && |p.slots[i].items| + |items| <= f.rule.max
             && EncodeUnpacked(f, items).Some? && |EncodeUnpacked(f, items).value| < MAX_ENCODING
             && forall v :: v in items ==> TypedValue(f, v)
    ensures var f := fields[i];
            DecodeLoop(fields, p, EncodeUnpacked(f, items).value + x) ==
            if forall v :: v in items ==> Fits(f, v)
            then DecodeLoop(fields, p.(slots := p.slots[i := Items(p.slots[i].items + StoredItems(f, items))]), x)
            else Bad
    decreases items, 1
  {
    hide DecodeLoop, EncodeValue, Tag, Fits, WellFormed, WellFormedField, TypedValue;
    var f := fields[i];
    if items == [] {
      assert [] + x == x;
      assert p.slots[i].items + [] == p.slots[i].items;
      assert p.slots[i := Items(p.slots[i].items)] == p.slots;
    } else {
      var v, e, tail := items[0], EncodeValue(f, items[0]).value, EncodeUnpacked(f, items[1..]).value;
      assert EncodeUnpacked(f, items).value + x == Tag(f.tag, WireType(f.ltype)) + e + (tail + x);
      UnpackedTurn(fields, i, p, v, tail + x);
      assert v in items;
      if Fits(f, v) {
        var q := p.(slots := p.slots[i := Items(p.slots[i].items + [Stored(f, v)])]);
        UnpackedRoundTrip(fields, i, q, items[1..], x);
        var stored := StoredItems(f, items);
        assert StoredItems(f, items) == [Stored(f, v)] + StoredItems(f, items[1..]);
        assert q.slots[i].items + StoredItems(f, items[1..]) == p.slots[i].items + stored;
        assert q.slots[i := Items(p.slots[i].items + stored)] == p.slots[i := Items(p.slots[i].items + stored)];
        assert items == [v] + items[1..];
      }
    }
  }

  lemma {:induction false} UnpackedTurn(fields: seq<Field>, i: nat, p: Progress, v: Value, x: seq<byte>)
    requires WellFormed(fields) && i < |fields| == |p.slots| && p.slots[i].Items?
    requires var f := fields[i];
             && f.rule.Repeated? && !Packable(f.ltype) && |p.slots[i].items| < f.rule.max
             && TypedValue(f, v) && EncodeValue(f, v).Some? && |EncodeValue(f, v).value| < MAX_ENCODING
    ensures var f := fields[i];
            DecodeLoop(fields, p, Tag(f.tag, WireType(f.ltype)) + EncodeValue(f, v).value + x) ==
            if Fits(f, v) then DecodeLoop(fields, p.(slots := p.slots[i := Items(p.slots[i].items + [Stored(f, v)])]), x)
            else Bad
    decreases v, 1
  {
    hide DecodeLoop, EncodeValue, Tag, Fits, DecodeValue;
    var f := fields[i];
    assert WellFormedField(f);
    TaggedTurn(fields, i, p, WireType(f.ltype), EncodeValue(f, v).value, x);
    ValueRoundTrip(f, v, x);
    assert p.seen + Mark(fields, i) == p.seen;
  }

  lemma {:induction false} SingleRoundTrip(fields: seq<Field>, i: nat, p: Progress, s: Slot, v: Value, x: seq<byte>)
    requires WellFormed(fields) && i < |fields| == |p.slots| && (s.Chosen? ==> UnionFree(fields, i, p.slots))
    requires p.slots[i] == DefaultSlot(fields[i]) && TypedSlot(fields[i], s)
    requires s == Plain(v) || s == Flagged(true, v) || s == Chosen(v)
    requires EncodeTagged(fields[i], v).Some? && |EncodeTagged(fields[i], v).value| < MAX_ENCODING
    ensures DecodeLoop(fields, p, EncodeTagged(fields[i], v).value + x) ==
            if Fits(fields[i], v) then DecodeLoop(fields, After(fields, i, p, s), x) else Bad
    decreases v, 1
  {
    hide DecodeLoop, EncodeValue, Tag, Fits, DecodeValue;
    var f := fields[i];
    assert WellFormedField(f);
    TaggedTurn(fields, i, p, WireType(f.ltype), EncodeValue(f, v).value, x);
    ValueRoundTrip(f, v, x);
    if f.rule.Oneof? {
      assert SelectArm(fields, p.slots, i, Stored(f, v)) == p.slots[i := Chosen(Stored(f, v))];
    }
    assert f.rule.Required? || p.seen + Mark(fields, i) == p.seen;
  }

  lemma {:induction false} ArrayRoundTrip(fields: seq<Field>, i: nat, p: Progress, items: seq<Value>, x: seq<byte>)
    requires WellFormed(fields) && i < |fields| == |p.slots|
    requires p.slots[i] == DefaultSlot(fields[i]) && TypedSlot(fields[i], Items(items))
    requires EncodeSlot(fields[i], Items(items)).Some? && |EncodeSlot(fields[i], Items(items)).value| < MAX_ENCODING
    ensures DecodeLoop(fields, p, EncodeSlot(fields[i], Items(items)).value + x) ==
            if FitsSlot(fields[i], Items(items)) then DecodeLoop(fields, After(fields, i, p, Items(items)), x) else Bad
    decreases items, 2
  {
    hide DecodeLoop, EncodeValue, Tag, Fits, DecodeValue;
    var f := fields[i];
    assert WellFormedField(f);
    assert p.seen + Mark(fields, i) == p.seen;
    if items == [] {
      assert [] + x == x;
      assert p.slots[i := Items([])] == p.slots;
    } else if Packable(f.ltype) {
      var body := EncodePacked(f, items).value;
      TaggedTurn(fields, i, p, WT_STRING, Delimited(body), x);
      hide Encode, DecodePacked, EncodePacked, TakeDelimited;
      DelimitedRead(body, x);
      PackedRoundTrip(f, f.rule.max, [], items);
      assert [] + items == items;
    } else {
      UnpackedRoundTrip(fields, i, p, items, x);
      assert [] + StoredItems(f, items) == StoredItems(f, items);
    }
  }

  lemma {:induction false} SlotRoundTrip(fields: seq<Field>, i: nat, p: Progress, s: Slot, x: seq<byte>)
    requires WellFormed(fields) && i < |fields| == |p.slots| && (s.Chosen? ==> UnionFree(fields, i, p.slots))
    requires p.slots[i] == DefaultSlot(fields[i]) && TypedSlot(fields[i], s)
    requires EncodeSlot(fields[i], s).Some? && |EncodeSlot(fields[i], s).value| < MAX_ENCODING
    ensures DecodeLoop(fields, p, EncodeSlot(fields[i], s).value + x) ==
            if FitsSlot(fields[i], s) then DecodeLoop(fields, After(fields, i, p, s), x) else Bad
    decreases s, 3
  {
    hide DecodeLoop, EncodeTagged, EncodeArray, Fits, IsDefault;
    var f := fields[i];
    assert WellFormedField(f);
    assert [] + x == x;
    match s {
      case Plain(v) =>
        if f.rule.Singular? && IsDefault(f, v) {
          DefaultIsStored(f, v);
          assert p.slots[i := StoredSlot(f, s)] == p.slots;
        } else {
          SingleRoundTrip(fields, i, p, s, v, x);
        }
      case Flagged(has, v) =>
        if has {
          SingleRoundTrip(fields, i, p, s, v, x);
        } else {
          assert p.slots[i := StoredSlot(f, s)] == p.slots;
        }
      case Items(items) =>
        ArrayRoundTrip(fields, i, p, items, x);
      case Chosen(v) =>
        SingleRoundTrip(fields, i, p, s, v, x);
      case Unchosen =>
        assert p.slots[i := StoredSlot(f, s)] == p.slots;
    }
  }

  /** The decoder's state when the first i fields have been read. */
  function Midway(fields: seq<Field>, slots: seq<Slot>, i: nat): Progress
    requires i <= |fields| == |slots|
  {
    Progress(StoredAll(fields, slots)[..i] + Defaults(fields)[i..],
             SeenBefore(fields, i))
  }

  function SeenBefore(fields: seq<Field>, i: nat): (seen: set<nat>)
    requires i <= |fields|
    ensures forall k :: 0 <= k < RequiredBefore(fields, i) && k < MAX_REQUIRED_FIELDS ==> k in seen
  {
    if i == 0 then {} else SeenBefore(fields, i - 1) + Mark(fields, i - 1)
  }

  lemma MidwayStep(fields: seq<Field>, slots: seq<Slot>, i: nat)
    requires i < |fields| == |slots|
    ensures After(fields, i, Midway(fields, slots, i), slots[i]) == Midway(fields, slots, i + 1)
    ensures Midway(fields, slots, i).slots[i] == DefaultSlot(fields[i])
  {
    hide StoredSlot, DefaultSlot, RequiredBefore;
    var p, q := Midway(fields, slots, i), Midway(fields, slots, i + 1);
    assert p.slots[i := StoredSlot(fields[i], slots[i])] == q.slots;
    assert fields[i].rule.Required? || Mark(fields, i) == {};
  }

  lemma MidwayUnion(fields: seq<Field>, slots: seq<Slot>, i: nat)
    requires i < |fields| == |slots| && TypedMessage(fields, slots) && slots[i].Chosen?
    ensures UnionFree(fields, i, Midway(fields, slots, i).slots)
  {
    var p := Midway(fields, slots, i);
    forall j | 0 <= j < |fields| && fields[i].rule.Oneof? && fields[j].rule == fields[i].rule
      ensures p.slots[j] == Unchosen
    {
      assert TypedSlot(fields[j], slots[j]);
      if j < i {
        assert fields[j].rule == fields[i].rule && fields[j].rule.Oneof?;
        assert p.slots[j] == StoredSlot(fields[j], slots[j]);
      } else {
        assert p.slots[j] == DefaultSlot(fields[j]);
      }
    }
  }

  lemma EncodeSplit(fields: seq<Field>, slots: seq<Slot>, i: nat)
    requires i < |fields| == |slots| && EncodeMessage(fields[i..], slots[i..]).Some?
    ensures var e, rest := EncodeSlot(fields[i], slots[i]), EncodeMessage(fields[i + 1..], slots[i + 1..]);
            e.Some? && rest.Some? && EncodeMessage(fields[i..], slots[i..]).value == e.value + rest.value
  {
    assert fields[i..][1..] == fields[i + 1..];
    assert slots[i..][1..] == slots[i + 1..];
  }

  predicate FitsFrom(fields: seq<Field>, slots: seq<Slot>, i: nat)
    requires |fields| == |slots|
  {
    forall j :: i <= j < |fields| ==> FitsSlot(fields[j], slots[j])
  }

  lemma {:induction false} LoopRoundTrip(fields: seq<Field>, slots: seq<Slot>, i: nat)
    requires WellFormed(fields) && TypedMessage(fields, slots) && i <= |fields|
    requires EncodeMessage(fields[i..], slots[i..]).Some?
    requires |EncodeMessage(fields[i..], slots[i..]).value| < MAX_ENCODING
    ensures DecodeLoop(fields, Midway(fields, slots, i), EncodeMessage(fields[i..], slots[i..]).value) ==
            if FitsFrom(fields, slots, i) then Done(Midway(fields, slots, |fields|), [], false) else Bad
    decreases slots, 4, |fields| - i
  {
    hide EncodeSlot, FitsSlot, After;
    var p := Midway(fields, slots, i);
    if i == |fields| {
    } else {
      hide DecodeLoop, Midway, EncodeMessage;
      EncodeSplit(fields, slots, i);
      MidwayStep(fields, slots, i);
      assert TypedSlot(fields[i], slots[i]);
      if slots[i].Chosen? { MidwayUnion(fields, slots, i); }
      SlotRoundTrip(fields, i, p, slots[i], EncodeMessage(fields[i + 1..], slots[i + 1..]).value);
      if FitsSlot(fields[i], slots[i]) {
        LoopRoundTrip(fields, slots, i + 1);
      }
    }
  }

  /** pb_encode then pb_decode: the same observable message, or a rejected input when a length
    * prefix does not fit 32 bits. */
  lemma {:induction false} MessageRoundTrip(fields: seq<Field>, slots: seq<Slot>)
    requires WellFormed(fields) && TypedMessage(fields, slots)
    requires EncodeMessage(fields, slots).Some? && |EncodeMessage(fields, slots).value| < MAX_ENCODING
    ensures DecodeMessage(fields, Defaults(fields), EncodeMessage(fields, slots).value) ==
            if FitsAll(fields, slots) then Some(StoredAll(fields, slots)) else None
    decreases slots, 5
  {
    hide DecodeLoop, FitsSlot, EncodeMessage, Midway, AllRequiredSeen;
    assert fields[0..] == fields && slots[0..] == slots;
    MidwayEnds(fields, slots);
    LoopRoundTrip(fields, slots, 0);
    assert FitsFrom(fields, slots, 0) == FitsAll(fields, slots);
  }

  lemma MidwayEnds(fields: seq<Field>, slots: seq<Slot>)
    requires |fields| == |slots|
    ensures Midway(fields, slots, 0) == Progress(Defaults(fields), {})
    ensures Midway(fields, slots, |fields|).slots == StoredAll(fields, slots)
    ensures AllRequiredSeen(fields, Midway(fields, slots, |fields|).seen)
  {
    hide Defaults, StoredAll;
    assert Midway(fields, slots, 0).slots == Defaults(fields);
    assert Midway(fields, slots, |fields|).slots == StoredAll(fields, slots);
  }

  // ---------------------------------------------------------------- every typed message is encoded

  lemma {:induction false} TypedEncodes(f: Field, v: Value)
    requires TypedValue(f, v)
    ensures EncodeValue(f, v).Some? && EncodeTagged(f, v).Some?
    decreases v, 0
  {
    match v
    case Num(n) =>
    case Blob(b) =>
    case Sub(slots) => MessageEncodes(f.ltype.fields, slots);
  }

  lemma {:induction false} ItemsEncode(f: Field, items: seq<Value>)
    requires forall v :: v in items ==> TypedValue(f, v)
    ensures EncodePacked(f, items).Some? && EncodeUnpacked(f, items).Some?
    decreases items, 1
  {
    if items != [] {
      assert items[0] in items;
      TypedEncodes(f, items[0]);
      ItemsEncode(f, items[1..]);
    }
  }

  lemma {:induction false} SlotEncodes(f: Field, s: Slot)
    requires TypedSlot(f, s)
    ensures EncodeSlot(f, s).Some?
    decreases s, 2
  {
    match s
    case Plain(v) => TypedEncodes(f, v);
    case Flagged(_, v) => TypedEncodes(f, v);
    case Items(items) => ItemsEncode(f, items);
    case Chosen(v) => TypedEncodes(f, v);
    case Unchosen =>
  }

  lemma {:induction false} MessageEncodes(fields: seq<Field>, slots: seq<Slot>)
    requires |fields| == |slots| && forall i :: 0 <= i < |fields| ==> TypedSlot(fields[i], slots[i])
    ensures EncodeMessage(fields, slots).Some?
    decreases slots, 3
  {
    if fields != [] {
      SlotEncodes(fields[0], slots[0]);
      MessageEncodes(fields[1..], slots[1..]);
    }
  }

  // ---------------------------------------------------------------- short encodings always fit

  lemma {:induction false} ValueFits(f: Field, v: Value)
    requires Short(EncodeValue(f, v))
    ensures Fits(f, v)
    decreases v, 0
  {
    match v
    case Sub(slots) => MessageFits(f.ltype.fields, slots);
    case _ =>
  }

  lemma {:induction false} TaggedFits(f: Field, v: Value)
    requires Short(EncodeTagged(f, v))
    ensures Fits(f, v)
    decreases v, 1
  {
    ValueFits(f, v);
  }

  lemma {:induction false} ItemsFit(f: Field, items: seq<Value>)
    requires Short(EncodeUnpacked(f, items))
    ensures forall v :: v in items ==> Fits(f, v)
    decreases items, 1
  {
    if items != [] {
      TaggedFits(f, items[0]);
      ItemsFit(f, items[1..]);
    }
  }

  lemma {:induction false} ArrayFits(f: Field, max: nat, items: seq<Value>)
    requires Short(EncodeArray(f, max, items))
    ensures FitsSlot(f, Items(items))
    decreases items, 2
  {
    hide Encode;
    if !Packable(f.ltype) {
      if items != [] { ItemsFit(f, items); }
    } else if items == [] {
      assert EncodePacked(f, items) == Some([]);
    }
  }

  lemma {:induction false} SlotFits(f: Field, s: Slot)
    requires Short(EncodeSlot(f, s))
    ensures FitsSlot(f, s)
    decreases s, 3
  {
    match s
    case Plain(v) => if !(f.rule.Singular? && IsDefault(f, v)) { TaggedFits(f, v); }
    case Flagged(has, v) => if has { TaggedFits(f, v); }
    case Items(items) => ArrayFits(f, f.rule.max, items);
    case Chosen(v) => TaggedFits(f, v);
    case Unchosen =>
  }

  lemma {:induction false} MessageFits(fields: seq<Field>, slots: seq<Slot>)
    requires Short(EncodeMessage(fields, slots))
    ensures FitsAll(fields, slots)
    decreases slots, 4
  {
    if fields != [] {
      SlotFits(fields[0], slots[0]);
      MessageFits(fields[1..], slots[1..]);
    }
  }

  /** The round trip for messages whose encoding is shorter than 4 GiB. */
  lemma RoundTripBelow4G(fields: seq<Field>, slots: seq<Slot>)
    requires WellFormed(fields) && TypedMessage(fields, slots)
    ensures EncodeMessage(fields, slots).Some?
    ensures |EncodeMessage(fields, slots).value| < 0x1_0000_0000 ==>
              DecodeMessage(fields, Defaults(fields), EncodeMessage(fields, slots).value) == Some(StoredAll(fields, slots))
  {
    MessageEncodes(fields, slots);
    if |EncodeMessage(fields, slots).value| < 0x1_0000_0000 {
      MessageFits(fields, slots);
      MessageRoundTrip(fields, slots);
    }
  }
}
