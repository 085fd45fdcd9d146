/**
 * A valid message that pb_encode can encode and pb_decode rejects: a submessage longer than the
 * 32-bit length prefix the decoder can read.
 */
module Oversize {
  import opened Bytes
  import opened Varint
  import opened Schema
  import opened Wire
  import opened RoundTrip

  const ENTRIES: nat := 0x2000_0000

  /** An array of 2^29 numbers of the type int8_t, half a GiB. */
  function Numbers(): Field
  {
    Field(1, Repeated(ENTRIES), VarintT, 1, Num(0), 4, -4)
  }

  /** A submessage with that array. */
  function Table(): seq<Field>
  {
    [Field(1, Required, SubmessageT([Numbers()]), ENTRIES + 4, Num(0), 0, 0)]
  }

  function Negatives(): (items: seq<Value>)
    ensures |items| == ENTRIES && forall v :: v in items ==> v == Num(-1)
  {
    seq(ENTRIES, i => Num(-1))
  }

  function Message(): seq<Slot>
  {
    [Plain(Sub([Items(Negatives())]))]
  }

  lemma MessageTyped()
    ensures WellFormed(Table()) && TypedMessage(Table(), Message())
  {
    hide Negatives;
    assert TypedSlot(Numbers(), Items(Negatives()));
    assert TypedMessage([Numbers()], [Items(Negatives())]);
    assert WellFormedField(Numbers());
    assert WellFormed([Numbers()]);
  }

  /** A negative number takes ten bytes, whatever its type. */
  lemma TenBytes()
    ensures EncodeNumber(Numbers(), -1).Some? && |EncodeNumber(Numbers(), -1).value| == 10
  {
    EncodeMinimal(U64(-1), 9);
    EncodeLength64(U64(-1));
    Pow2Literals();
  }

  lemma {:induction false} NegativesSize(items: seq<Value>)
    requires forall v :: v in items ==> v == Num(-1)
    ensures EncodePacked(Numbers(), items).Some? && |EncodePacked(Numbers(), items).value| == 10 * |items|
  {
    TenBytes();
    hide EncodeNumber, Numbers;
    if items != [] {
      assert items[0] in items && forall v :: v in items[1..] ==> v in items;
      NegativesSize(items[1..]);
      assert EncodeValue(Numbers(), items[0]) == EncodeNumber(Numbers(), -1);
    }
  }

  /** The array takes 5 GiB, the submessage a little more. */
  lemma SubmessageSize()
    ensures var e := EncodeMessage([Numbers()], [Items(Negatives())]);
            e.Some? && 10 * ENTRIES < |e.value| <= 10 * ENTRIES + 20
  {
    var f, items := Numbers(), Negatives();
    hide Negatives, EncodePacked, Encode;
    NegativesSize(items);
    EncodeLength64(10 * ENTRIES);
    EncodeLength64(8 * f.tag + WT_STRING);
    assert [f][1..] == [] && [Items(items)][1..] == [];
    assert EncodeMessage([], []) == Some([]);
    assert EncodeSlot(f, Items(items)) == EncodeArray(f, ENTRIES, items);
  }

  lemma OuterSize()
    ensures var e := EncodeMessage(Table(), Message());
            e.Some? && |e.value| < MAX_ENCODING
  {
    SubmessageSize();
    hide Negatives, Numbers, Encode, EncodeArray;
    var f, v := Table()[0], Sub([Items(Negatives())]);
    var body := EncodeMessage(f.ltype.fields, v.slots).value;
    EncodeLength64(|body|);
    EncodeLength64(8 * f.tag + WT_STRING);
    assert EncodeValue(f, v) == Some(Delimited(body));
    assert Table()[1..] == [] && Message()[1..] == [];
    assert EncodeMessage([], []) == Some([]);
    assert EncodeSlot(f, Plain(v)) == EncodeTagged(f, v);
  }

  lemma TooLong()
    ensures !FitsAll(Table(), Message())
  {
    SubmessageSize();
    hide Negatives, Numbers, EncodeMessage;
    assert !FitsSlot(Table()[0], Message()[0]);
  }

  /** The message is valid and has an encoding, and decoding it fails. */
  lemma RejectedMessage()
    ensures WellFormed(Table()) && TypedMessage(Table(), Message())
    ensures EncodeMessage(Table(), Message()).Some?
    ensures DecodeMessage(Table(), Defaults(Table()), EncodeMessage(Table(), Message()).value) == None
  {
    hide Table, Message, EncodeMessage, DecodeMessage, WellFormed, TypedMessage, FitsAll, Defaults;
    MessageTyped();
    OuterSize();
    TooLong();
    MessageRoundTrip(Table(), Message());
  }
}
