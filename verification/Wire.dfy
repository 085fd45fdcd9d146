/**
 * The wire format as nanopb writes and reads it: what pb_encode appends for a message, and what
 * the field loop of pb_decode_noinit does to a destination struct (pb_encode.c, pb_decode.c).
 */
module Wire {
  import opened Bytes
  import opened Varint
  import opened Schema

  const WT_VARINT: nat := 0
  const WT_64BIT: nat := 1
  const WT_STRING: nat := 2
  const WT_32BIT: nat := 5

  // ---------------------------------------------------------------- encoding

  /** The low n bytes of v, least significant first. */
  function LittleEndian(v: nat, n: nat): (s: seq<byte>)
    ensures |s| == n
  {
    if n == 0 then [] else [v % 256] + LittleEndian(v / 256, n - 1)
  }

  /** pb_encode_tag_for_field's choice. */
  function WireType(t: LType): nat
  {
    match t
    case VarintT => WT_VARINT
    case UVarintT => WT_VARINT
    case SVarintT => WT_VARINT
    case Fixed32T => WT_32BIT
    case Fixed64T => WT_64BIT
    case _ => WT_STRING
  }

  function Tag(field: nat, wireType: nat): seq<byte>
  {
    Encode(field * 8 + wireType)
  }

  /** pb_encode_string */
  function Delimited(s: seq<byte>): seq<byte>
  {
    Encode(|s|) + s
  }

  function EncodeNumber(f: Field, n: int): Option<seq<byte>>
  {
    if !TypedNumber(f.ltype, f.size, n) then None
    else
      match f.ltype
      case VarintT => Some(Encode(U64(n)))
      case UVarintT => Some(Encode(n))
      case SVarintT => Some(Encode(Zigzag(n)))
      case Fixed32T => Some(LittleEndian(n, 4))
      case _ => Some(LittleEndian(n, 8))
  }

  /** The field encoders PB_ENCODERS; None for values the C types cannot hold and for their errors. */
  function EncodeValue(f: Field, v: Value): Option<seq<byte>>
    decreases v, 0
  {
    match v
    case Num(n) => EncodeNumber(f, n)
    case Blob(b) =>
      if f.ltype.BytesT? then if |b| + BYTES_HEADER > f.size then None else Some(Delimited(b))
      else if f.ltype.StringT? then if 0 in b || |b| > f.size then None else Some(Delimited(b))
      else if f.ltype.FixedBytesT? && |b| == f.size then Some(Delimited(b))
      else None
    case Sub(slots) =>
      if !f.ltype.SubmessageT? then None
      else
        var body :- EncodeMessage(f.ltype.fields, slots);
        Some(Delimited(body))
  }

  /** pb_check_proto3_default_value for a singular field's data. */
  predicate IsDefault(f: Field, v: Value)
    decreases v, 0
  {
    match v
    case Sub(slots) => f.ltype.SubmessageT? && AllDefault(f.ltype.fields, slots)
    case _ => ZeroValue(f, v)
  }

  /** The same check on one member of a submessage. A union is default when no member of it is
    * chosen; asking that of every member comes to the same. */
  predicate IsDefaultSlot(f: Field, s: Slot)
    decreases s, 0
  {
    match s
    case Plain(v) => !f.rule.Required? && IsDefault(f, v)
    case Flagged(has, _) => !has
    case Items(items) => items == []
    case Chosen(_) => false
    case Unchosen => true
  }

  predicate AllDefault(fields: seq<Field>, slots: seq<Slot>)
    decreases slots, 0
  {
    && |fields| == |slots|
    && forall i :: 0 <= i < |slots| ==> IsDefaultSlot(fields[i], slots[i])
  }

  function EncodeTagged(f: Field, v: Value): Option<seq<byte>>
    decreases v, 1
  {
    var e :- EncodeValue(f, v);
    Some(Tag(f.tag, WireType(f.ltype)) + e)
  }

  /** Array entries one after another, without tags. */
  function EncodePacked(f: Field, items: seq<Value>): Option<seq<byte>>
    decreases items, 2
  {
    if items == [] then Some([])
    else
      var e :- EncodeValue(f, items[0]);
      var rest :- EncodePacked(f, items[1..]);
      Some(e + rest)
  }

  function EncodeUnpacked(f: Field, items: seq<Value>): Option<seq<byte>>
    decreases items, 2
  {
    if items == [] then Some([])
    else
      var e :- EncodeTagged(f, items[0]);
      var rest :- EncodeUnpacked(f, items[1..]);
      Some(e + rest)
  }

  /** encode_array */
  function EncodeArray(f: Field, max: nat, items: seq<Value>): Option<seq<byte>>
    decreases items, 3
  {
    if items == [] then Some([])
    else if |items| > max then None
    else if Packable(f.ltype) then
      var body :- EncodePacked(f, items);
      Some(Tag(f.tag, WT_STRING) + Delimited(body))
    else EncodeUnpacked(f, items)
  }

  /** encode_basic_field */
  function EncodeSlot(f: Field, s: Slot): Option<seq<byte>>
    decreases s, 4
  {
    match (f.rule, s)
    case (Required, Plain(v)) => EncodeTagged(f, v)
    case (Singular, Plain(v)) => if IsDefault(f, v) then Some([]) else EncodeTagged(f, v)
    case (Optional, Flagged(has, v)) => if has then EncodeTagged(f, v) else Some([])
    case (Repeated(max), Items(items)) => EncodeArray(f, max, items)
    case (Oneof(_), Chosen(v)) => EncodeTagged(f, v)
    case (Oneof(_), Unchosen) => Some([])
    case _ => None
  }

  /** pb_encode */
  function EncodeMessage(fields: seq<Field>, slots: seq<Slot>): Option<seq<byte>>
    decreases slots, 5
  {
    if |fields| != |slots| then None
    else if fields == [] then Some([])
    else
      var e :- EncodeSlot(fields[0], slots[0]);
      var rest :- EncodeMessage(fields[1..], slots[1..]);
      Some(e + rest)
  }

  // ---------------------------------------------------------------- decoding

  function FromLittleEndian(s: seq<byte>): nat
  {
    if s == [] then 0 else s[0] + 256 * FromLittleEndian(s[1..])
  }

  /** A length prefix and that many bytes: pb_make_string_substream then pb_close_string_substream. */
  function TakeDelimited(s: seq<byte>): Parsed<seq<byte>>
  {
    var (n, r) :- Decode32(s);
    Take(r, n)
  }

  /** Narrowing to the field's size, which must not lose anything (pb_dec_varint and its siblings). */
  function Clamp(n: int, narrowed: int, rest: seq<byte>): Parsed<Value>
  {
    if n == narrowed then Got(Num(n), rest) else Fail
  }

  function DecodeNumber(t: LType, size: nat, s: seq<byte>): Parsed<Value>
  {
    match t
    case VarintT =>
      var (v, r) :- Decode64(s);
      var n := if size == 8 then Signed(v, 0x1_0000_0000_0000_0000) else Signed(v, 0x1_0000_0000);
      if IntegerSize(size) then Clamp(n, Signed(n, Modulus(size)), r) else Fail
    case UVarintT =>
      var (v, r) :- Decode64(s);
      if IntegerSize(size) then Clamp(v, v % Modulus(size), r) else Fail
    case SVarintT =>
      var (v, r) :- Decode64(s);
      var n := Unzigzag(v);
      if IntegerSize(size) then Clamp(n, Signed(n, Modulus(size)), r) else Fail
    case Fixed32T =>
      var (b, r) :- Take(s, 4);
      Got(Num(FromLittleEndian(b)), r)
    case Fixed64T =>
      var (b, r) :- Take(s, 8);
      Got(Num(FromLittleEndian(b)), r)
    case _ => Fail
  }

  function DecodeBlob(f: Field, s: seq<byte>): Parsed<Value>
  {
    var (n, r) :- Decode32(s);
    match f.ltype
    case BytesT =>
      if n + BYTES_HEADER > f.size then Fail
      else
        var (b, r') :- Take(r, n);
        Got(Blob(b), r')
    case StringT =>
      // alloc_size = size + 1 is computed in 32 bits
      if U32(n + 1) < n || U32(n + 1) > f.size then Fail
      else
        var (b, r') :- Take(r, n);
        Got(Blob(CString(b)), r')
    case FixedBytesT =>
      if n == 0 then Got(Blob(Zeros(f.size)), r)
      else if n != f.size then Fail
      else
        var (b, r') :- Take(r, n);
        Got(Blob(b), r')
    case _ => Fail
  }

  /** The field decoders PB_DECODERS. `cur` is what the destination holds: a submessage is merged
    * into it. */
  function DecodeValue(f: Field, cur: Value, s: seq<byte>): (p: Parsed<Value>)
    ensures p.Got? ==> |p.rest| <= |s|
    decreases |s|, 1
  {
    match f.ltype
    case SubmessageT(fields) =>
      DecodeBounds(s);
      var (body, r) :- TakeDelimited(s);
      var before := if cur.Sub? && |cur.slots| == |fields| then cur.slots else Defaults(fields);
      (match DecodeMessage(fields, before, body)
       case Some(slots) => Got(Sub(slots), r)
       case None => Fail)
    case BytesT => DecodeBounds(s); DecodeBlob(f, s)
    case StringT => DecodeBounds(s); DecodeBlob(f, s)
    case FixedBytesT => DecodeBounds(s); DecodeBlob(f, s)
    case t => DecodeBounds(s); DecodeNumber(t, f.size, s)
  }

  lemma DecodeBounds(s: seq<byte>)
    ensures Decode32(s).Got? ==> |Decode32(s).rest| < |s|
    ensures TakeDelimited(s).Got? ==> |TakeDelimited(s).value| + |TakeDelimited(s).rest| < |s|
  {
    if s != [] && s[0] >= 128 { Decode32FromBounds(s[1..], 7, s[0] % 128); }
  }

  lemma {:induction false} Decode32FromBounds(s: seq<byte>, bitpos: nat, result: nat)
    ensures Decode32From(s, bitpos, result).Got? ==> |Decode32From(s, bitpos, result).rest| < |s|
  {
    if s != [] && s[0] >= 128 && Decode32From(s, bitpos, result).Got? {
      var r := if bitpos >= 32 then result else Or(result, U32(s[0] % 128 * Pow2(bitpos)));
      Decode32FromBounds(s[1..], (bitpos + 7) % 256, r);
    }
  }

  /** What the decoder of a number leaves when it fails: a varint too large for the field has been
    * read, a truncated or overlong one as far as it was read, and of a fixed number nothing. */
  function FailedNumber(t: LType, s: seq<byte>): seq<byte>
  {
    if t.Fixed32T? || t.Fixed64T? then s
    else if Decode64(s).Got? then Decode64(s).rest
    else Abandoned(s)
  }

  /** How the loop over a packed array ends: whether its last entry could be decoded, the entries, and
    * the bytes it leaves. */
  datatype PackedEnd = PackedEnd(status: bool, items: seq<Value>, rest: seq<byte>)

  function PackedLoop(f: Field, max: nat, items: seq<Value>, s: seq<byte>): PackedEnd
    decreases |s|
  {
    if s == [] || |items| >= max then PackedEnd(true, items, s)
    else
      match DecodeNumber(f.ltype, f.size, s)
      case Fail => PackedEnd(false, items, FailedNumber(f.ltype, s))
      case Got(v, r) => if |r| < |s| then PackedLoop(f, max, items + [v], r) else PackedEnd(true, items + [v], r)
  }

  /** The loop over a packed array: while bytes and array entries are left. */
  function DecodePacked(f: Field, max: nat, items: seq<Value>, s: seq<byte>): Option<seq<Value>>
    decreases |s|, 2
  {
    if s == [] then Some(items)
    else if |items| >= max then None
    else
      match DecodeValue(f, DefaultValue(f), s)
      case Fail => None
      case Got(v, r) => if |r| < |s| then DecodePacked(f, max, items + [v], r) else None
  }

  /** Selecting a member of a union deselects the others. */
  function SelectArm(fields: seq<Field>, slots: seq<Slot>, i: nat, v: Value): (r: seq<Slot>)
    requires i < |fields| == |slots|
    ensures |r| == |slots|
  {
    seq(|slots|, j requires 0 <= j < |slots| =>
      if j == i then Chosen(v)
      else if fields[j].rule.Oneof? && fields[j].rule == fields[i].rule then Unchosen
      else slots[j])
  }

  /** The data an optional or required submessage is merged into. */
  function Current(f: Field, s: Slot): Value
  {
    match s
    case Plain(v) => v
    case Flagged(_, v) => v
    case _ => DefaultValue(f)
  }

  /** decode_static_field; the wire type matters only for arrays. */
  function DecodeSlot(fields: seq<Field>, i: nat, slots: seq<Slot>, wireType: nat, s: seq<byte>): (p: Parsed<seq<Slot>>)
    requires i < |fields| == |slots|
    ensures p.Got? ==> |p.rest| <= |s| && |p.value| == |slots|
    decreases |s|, 3
  {
    var f := fields[i];
    match f.rule
    case Required =>
      var (v, r) :- DecodeValue(f, Current(f, slots[i]), s);
      Got(slots[i := Plain(v)], r)
    case Singular =>
      var (v, r) :- DecodeValue(f, Current(f, slots[i]), s);
      Got(slots[i := Plain(v)], r)
    case Optional =>
      var (v, r) :- DecodeValue(f, Current(f, slots[i]), s);
      Got(slots[i := Flagged(true, v)], r)
    case Repeated(max) =>
      var items := if slots[i].Items? then slots[i].items else [];
      if wireType == WT_STRING && Packable(f.ltype) then
        DecodeBounds(s);
        var (body, r) :- TakeDelimited(s);
        (match DecodePacked(f, max, items, body)
         case Some(all) => Got(slots[i := Items(all)], r)
         case None => Fail)
      else if |items| >= max then Fail
      else
        var (v, r) :- DecodeValue(f, DefaultValue(f), s);
        Got(slots[i := Items(items + [v])], r)
    case Oneof(_) =>
      var (v, r) :- DecodeValue(f, DefaultValue(f), s);
      Got(SelectArm(fields, slots, i, v), r)
  }

  /** pb_skip_field: what is left after the payload of an unknown field. */
  function SkipField(wireType: nat, s: seq<byte>): (p: Parsed<()>)
    ensures p.Got? ==> |p.rest| <= |s|
  {
    if wireType == WT_VARINT then if Span(s) < |s| then Got((), s[Span(s) + 1..]) else Fail
    else if wireType == WT_64BIT then if 8 <= |s| then Got((), s[8..]) else Fail
    else if wireType == WT_STRING then
      DecodeBounds(s);
      var (body, r) :- TakeDelimited(s);
      Got((), r)
    else if wireType == WT_32BIT then if 4 <= |s| then Got((), s[4..]) else Fail
    else Fail
  }

  /** The destination struct and the required fields seen so far, by required_field_index. */
  datatype Progress = Progress(slots: seq<Slot>, seen: set<nat>)

  /** One field of the input after its tag has been read. On an empty descriptor table the
    * terminator matches tag 0, and then no integer has its size. */
  function DecodeField(fields: seq<Field>, p: Progress, tag: nat, wireType: nat, s: seq<byte>): (q: Parsed<Progress>)
    requires |p.slots| == |fields|
    ensures q.Got? ==> |q.rest| <= |s| && |q.value.slots| == |fields|
    decreases |s|, 4
  {
    if tag == 0 && fields == [] then Fail
    else
      match Find(fields, tag)
      case None =>
        var (u, r) :- SkipField(wireType, s);
        Got(p, r)
      case Some(i) =>
        var (slots, r) :- DecodeSlot(fields, i, p.slots, wireType, s);
        Got(Progress(slots, p.seen + Mark(fields, i)), r)
  }

  /** The bit set in fields_seen. */
  function Mark(fields: seq<Field>, i: nat): set<nat>
    requires i < |fields|
  {
    var k := RequiredBefore(fields, i);
    if fields[i].rule.Required? && k < MAX_REQUIRED_FIELDS then {k} else {}
  }

  /** `Done`: the loop ended, at the end of the input or (`stopped`) at a zero tag. */
  datatype LoopResult = Bad | Done(p: Progress, rest: seq<byte>, stopped: bool)

  /** The while loop of pb_decode_noinit. */
  function DecodeLoop(fields: seq<Field>, p: Progress, s: seq<byte>): (r: LoopResult)
    requires |p.slots| == |fields|
    ensures r.Done? ==> |r.p.slots| == |fields| && |r.rest| <= |s|
    decreases |s|, 5
  {
    if s == [] then Done(p, [], false)
    else
      DecodeBounds(s);
      match Decode32(s)
      case Fail => Bad
      case Got(t, r) =>
        if t == 0 then Done(p, r, true)
        else
          match DecodeField(fields, p, t / 8, t % 8, r)
          case Fail => Bad
          case Got(q, r') => DecodeLoop(fields, q, r')
  }

  /** pb_decode_noinit: the loop, then the check that every tracked required field was seen. */
  function DecodeMessage(fields: seq<Field>, slots: seq<Slot>, s: seq<byte>): (r: Option<seq<Slot>>)
    requires |slots| == |fields|
    ensures r.Some? ==> |r.value| == |fields|
    decreases |s|, 6
  {
    match DecodeLoop(fields, Progress(slots, {}), s)
    case Bad => None
    case Done(p, _, _) => if AllRequiredSeen(fields, p.seen) then Some(p.slots) else None
  }

  predicate AllRequiredSeen(fields: seq<Field>, seen: set<nat>)
  {
    forall k :: 0 <= k < RequiredBefore(fields, |fields|) && k < MAX_REQUIRED_FIELDS ==> k in seen
  }
}
