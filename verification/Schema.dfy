/**
 * Field descriptors, typed message values and default values (pb.h, pb_decode.c).
 *
 * A descriptor is a tree: with static allocation a submessage lives inside its parent's struct,
 * so a message type cannot contain itself.
 */
module Schema {
  import opened Bytes

  /** PB_LTYPE_*; a submessage carries the descriptor its `ptr` points to. */
  datatype LType = VarintT | UVarintT | SVarintT | Fixed32T | Fixed64T
                 | BytesT | StringT | FixedBytesT | SubmessageT(fields: seq<Field>)

  /** PB_HTYPE_* of a statically allocated field. `Singular` is OPTIONAL without a has_ flag (proto3);
    * `Oneof` names the union the field belongs to. */
  datatype Rule = Required | Optional | Singular | Repeated(max: nat) | Oneof(union: nat)

  /** pb_field_t. `dataOffset` is relative to the end of the previous field and `sizeOffset` to the
    * field's data. `dflt` is the value behind `ptr`, or zeros when `ptr` is null; it is not
    * used for submessages. */
  datatype Field = Field(tag: nat, rule: Rule, ltype: LType, size: nat, dflt: Value,
                         dataOffset: nat, sizeOffset: int)

  /** The contents of one data member. A string is its bytes up to the terminating NUL. */
  datatype Value = Num(n: int) | Blob(b: seq<byte>) | Sub(slots: seq<Slot>)

  /** A field's storage: data; has_ flag and data; count and that many array entries;
    * the selected or an unselected member of a union. */
  datatype Slot = Plain(v: Value) | Flagged(has: bool, v: Value) | Items(items: seq<Value>)
                | Chosen(v: Value) | Unchosen

  const BYTES_HEADER: nat := 4          // offsetof(pb_bytes_array_t, bytes) with 32-bit pb_size_t
  const MAX_REQUIRED_FIELDS: nat := 64  // PB_MAX_REQUIRED_FIELDS

  predicate Packable(t: LType)
  {
    t.VarintT? || t.UVarintT? || t.SVarintT? || t.Fixed32T? || t.Fixed64T?
  }

  predicate IntegerSize(size: nat)
  {
    size == 1 || size == 2 || size == 4 || size == 8
  }

  /** Number of values of a `size`-byte integer. */
  function Modulus(size: nat): nat
  {
    if size == 1 then 0x100 else if size == 2 then 0x1_0000 else if size == 4 then 0x1_0000_0000
    else 0x1_0000_0000_0000_0000
  }

  function Zeros(n: nat): (s: seq<byte>)
    ensures |s| == n
  {
    seq(n, i => 0)
  }

  /** The bytes before the first NUL. */
  function CString(s: seq<byte>): (c: seq<byte>)
    ensures c <= s && 0 !in c
    ensures |c| < |s| ==> s[|c|] == 0
  {
    if s == [] || s[0] == 0 then [] else [s[0]] + CString(s[1..])
  }

  // ---------------------------------------------------------------- defaults

  /** pb_field_set_to_default for the data of a singular field. */
  function DefaultValue(f: Field): Value
    decreases f, 1
  {
    if f.ltype.SubmessageT? then Sub(Defaults(f.ltype.fields)) else f.dflt
  }

  function DefaultSlot(f: Field): Slot
    decreases f, 2
  {
    match f.rule
    case Required => Plain(DefaultValue(f))
    case Singular => Plain(DefaultValue(f))
    case Optional => Flagged(false, DefaultValue(f))
    case Repeated(_) => Items([])
    case Oneof(_) => Unchosen
  }

  /** pb_message_set_to_defaults */
  function Defaults(fields: seq<Field>): (slots: seq<Slot>)
    ensures |slots| == |fields|
    ensures forall i :: 0 <= i < |fields| ==> slots[i] == DefaultSlot(fields[i])
    decreases fields, 3
  {
    if fields == [] then [] else [DefaultSlot(fields[0])] + Defaults(fields[1..])
  }

  // ---------------------------------------------------------------- what a program may store

  predicate TypedNumber(t: LType, size: nat, n: int)
  {
    match t
    case VarintT => IntegerSize(size) && -(Modulus(size) / 2) <= n < Modulus(size) / 2
    case SVarintT => IntegerSize(size) && -(Modulus(size) / 2) <= n < Modulus(size) / 2
    case UVarintT => IntegerSize(size) && 0 <= n < Modulus(size)
    case Fixed32T => size == 4 && 0 <= n < 0x1_0000_0000
    case Fixed64T => size == 8 && 0 <= n < 0x1_0000_0000_0000_0000
    case _ => false
  }

  /** A value of the field's C type; strings are terminated within their buffer. */
  predicate TypedValue(f: Field, v: Value)
    decreases f, 1
  {
    match v
    case Num(n) => TypedNumber(f.ltype, f.size, n)
    case Blob(b) =>
      || (f.ltype.BytesT? && |b| + BYTES_HEADER <= f.size)
      || (f.ltype.StringT? && 0 !in b && |b| < f.size)
      || (f.ltype.FixedBytesT? && |b| == f.size)
    case Sub(slots) => f.ltype.SubmessageT? && TypedMessage(f.ltype.fields, slots)
  }

  predicate TypedSlot(f: Field, s: Slot)
    decreases f, 2
  {
    match s
    case Plain(v) => (f.rule.Required? || f.rule.Singular?) && TypedValue(f, v)
    case Flagged(has, v) => f.rule.Optional? && TypedValue(f, v)
    case Items(items) =>
      f.rule.Repeated? && |items| <= f.rule.max && forall v :: v in items ==> TypedValue(f, v)
    case Chosen(v) => f.rule.Oneof? && TypedValue(f, v)
    case Unchosen => f.rule.Oneof?
  }

  /** A union holds at most one of its members. */
  predicate OneArm(fields: seq<Field>, slots: seq<Slot>)
    requires |fields| == |slots|
  {
    forall i, j :: 0 <= i < j < |fields| && fields[i].rule.Oneof? && fields[i].rule == fields[j].rule ==>
                     !(slots[i].Chosen? && slots[j].Chosen?)
  }

  predicate TypedMessage(fields: seq<Field>, slots: seq<Slot>)
    decreases fields, 3
  {
    && |fields| == |slots|
    && OneArm(fields, slots)
    && forall i :: 0 <= i < |fields| ==> TypedSlot(fields[i], slots[i])
  }

  /** The zero value pb_check_proto3_default_value looks for in a scalar field. */
  predicate ZeroValue(f: Field, v: Value)
  {
    match v
    case Num(n) => n == 0
    case Blob(b) => if f.ltype.FixedBytesT? then f.size == 0 else b == []
    case Sub(_) => false
  }

  predicate WellFormedField(f: Field)
    decreases f, 1
  {
    && 0 < f.tag < 0x2000_0000
    && f.size < 0x1_0000_0000
    && if f.ltype.SubmessageT? then WellFormed(f.ltype.fields)
       else TypedValue(f, f.dflt) && (f.rule.Singular? && !f.ltype.FixedBytesT? ==> ZeroValue(f, f.dflt))
  }

  predicate DistinctTags(fields: seq<Field>)
  {
    forall i, j :: 0 <= i < j < |fields| ==> fields[i].tag != fields[j].tag
  }

  predicate ProperTag(f: Field)
    decreases f, 1
  {
    0 < f.tag < 0x1_0000_0000 && (f.ltype.SubmessageT? ==> ProperTags(f.ltype.fields))
  }

  /** In a table and in every table below it, tags are non-zero 32-bit numbers that tell the fields apart. */
  predicate ProperTags(fields: seq<Field>)
    decreases fields, 3
  {
    DistinctTags(fields) && forall i :: 0 <= i < |fields| ==> ProperTag(fields[i])
  }

  lemma {:induction false} WellFormedTags(fields: seq<Field>)
    requires WellFormed(fields)
    ensures ProperTags(fields)
    decreases fields, 3
  {
    forall i | 0 <= i < |fields| ensures ProperTag(fields[i]) {
      WellFormedTag(fields[i]);
    }
  }

  lemma {:induction false} WellFormedTag(f: Field)
    requires WellFormedField(f)
    ensures ProperTag(f)
    decreases f, 1
  {
    if f.ltype.SubmessageT? { WellFormedTags(f.ltype.fields); }
  }

  /** Descriptor tables as the generator emits them: distinct non-zero tags below 2^29, C types
    * that exist, proto3 fields without a default. */
  predicate WellFormed(fields: seq<Field>)
    decreases fields, 3
  {
    DistinctTags(fields) && forall i :: 0 <= i < |fields| ==> WellFormedField(fields[i])
  }

  /** Required fields before position i: pb_field_iter_t's required_field_index. */
  function RequiredBefore(fields: seq<Field>, i: nat): (n: nat)
    requires i <= |fields|
    ensures n <= i
  {
    if i == 0 then 0 else RequiredBefore(fields, i - 1) + if fields[i - 1].rule.Required? then 1 else 0
  }

  lemma {:induction false} RequiredGrows(fields: seq<Field>, i: nat, j: nat)
    requires i <= j <= |fields|
    ensures RequiredBefore(fields, i) <= RequiredBefore(fields, j)
  {
    if i < j { RequiredGrows(fields, i, j - 1); }
  }

  /** The position of the field with this tag. */
  function Find(fields: seq<Field>, tag: nat): (r: Option<nat>)
    ensures r.Some? ==> r.value < |fields| && fields[r.value].tag == tag
    ensures r.None? <==> forall i :: 0 <= i < |fields| ==> fields[i].tag != tag
  {
    FindFrom(fields, tag, 0)
  }

  function FindFrom(fields: seq<Field>, tag: nat, i: nat): (r: Option<nat>)
    requires i <= |fields|
    ensures r.Some? ==> i <= r.value < |fields| && fields[r.value].tag == tag
    ensures r.None? <==> forall j :: i <= j < |fields| ==> fields[j].tag != tag
    decreases |fields| - i
  {
    if i == |fields| then None
    else if fields[i].tag == tag then Some(i)
    else FindFrom(fields, tag, i + 1)
  }
}
