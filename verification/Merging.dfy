/**
 * Repeated occurrences of a submessage field (decode_static_field and pb_dec_submessage in
 * pb_decode.c): a required, optional or singular one is merged into what is there, a member of a
 * union is replaced, an array entry is appended; and exactly when that is so.
 */
module Merging {
  import opened Bytes
  import opened Varint
  import opened Schema
  import opened Wire
  import opened Confinement
  import opened RoundTrip

  /** The loop's result with `seen` added to the required fields seen. */
  function WithSeen(r: LoopResult, seen: set<nat>): LoopResult
  {
    match r
    case Bad => Bad
    case Done(p, rest, stopped) => Done(p.(seen := seen + p.seen), rest, stopped)
  }

  /** What has been seen before only adds to what is seen in the end. */
  lemma {:induction false} SeenAdds(fields: seq<Field>, p: Progress, seen: set<nat>, s: seq<byte>)
    requires |p.slots| == |fields|
    ensures DecodeLoop(fields, p.(seen := seen + p.seen), s) == WithSeen(DecodeLoop(fields, p, s), seen)
    decreases |s|
  {
    hide Decode32, Find, DecodeSlot, SkipField, Mark;
    if s != [] && Decode32(s).Got? && Decode32(s).value != 0 {
      var Got(t, r) := Decode32(s);
      DecodeBounds(s);
      FieldSeen(fields, p, seen, t / 8, t % 8, r);
      hide DecodeField;
      if DecodeField(fields, p, t / 8, t % 8, r).Got? {
        var Got(q, r') := DecodeField(fields, p, t / 8, t % 8, r);
        SeenAdds(fields, q, seen, r');
      }
    }
  }

  lemma FieldSeen(fields: seq<Field>, p: Progress, seen: set<nat>, tag: nat, wireType: nat, s: seq<byte>)
    requires |p.slots| == |fields|
    ensures var p' := p.(seen := seen + p.seen);
            match DecodeField(fields, p, tag, wireType, s)
            case Fail => DecodeField(fields, p', tag, wireType, s) == Fail
            case Got(q, r) => DecodeField(fields, p', tag, wireType, s) == Got(q.(seen := seen + q.seen), r)
  {
    hide DecodeSlot, SkipField, Find, Mark;
    if !(tag == 0 && fields == []) && Find(fields, tag).Some? {
      var i := Find(fields, tag).value;
      assert (seen + p.seen) + Mark(fields, i) == seen + (p.seen + Mark(fields, i));
    }
  }

  /** What the loop has made of a payload when it fails: the fields before the one it fails on, and
    * the bytes from that one on. */
  datatype Stuck = Stuck(p: Progress, rest: seq<byte>)

  function StuckAt(fields: seq<Field>, p: Progress, s: seq<byte>): (k: Stuck)
    requires |p.slots| == |fields| && DecodeLoop(fields, p, s).Bad?
    ensures |k.p.slots| == |fields| && |k.rest| <= |s|
    decreases |s|
  {
    match Decode32(s)
    case Fail => Stuck(p, s)
    case Got(t, r) =>
      DecodeBounds(s);
      match DecodeField(fields, p, t / 8, t % 8, r)
      case Fail => Stuck(p, s)
      case Got(q, r') => StuckAt(fields, q, r')
  }

  /** The fields before the failure are decoded whatever follows. */
  lemma {:induction false} StuckFold(fields: seq<Field>, p: Progress, a: seq<byte>, b: seq<byte>)
    requires |p.slots| == |fields| && DecodeLoop(fields, p, a).Bad?
    ensures var k := StuckAt(fields, p, a);
            DecodeLoop(fields, p, a + b) == DecodeLoop(fields, k.p, k.rest + b) && DecodeLoop(fields, k.p, k.rest).Bad?
    decreases |a|
  {
    hide Decode32, DecodeField, Used, IsSuffix;
    if Decode32(a).Got? {
      var Got(t, r) := Decode32(a);
      DecodeBounds(a);
      if DecodeField(fields, p, t / 8, t % 8, r).Got? {
        var Got(q, r') := DecodeField(fields, p, t / 8, t % 8, r);
        LocalTurn(fields, p, a, r' + b);
        SplitAt(a, r', b);
        hide DecodeLoop;
        StuckFold(fields, q, r', b);
      }
    }
  }

  /** A zero tag ends the loop, whatever follows it. */
  lemma {:induction false} StoppedFold(fields: seq<Field>, p: Progress, a: seq<byte>, b: seq<byte>)
    requires |p.slots| == |fields| && DecodeLoop(fields, p, a).Done? && DecodeLoop(fields, p, a).stopped
    ensures var d := DecodeLoop(fields, p, a); DecodeLoop(fields, p, a + b) == Done(d.p, d.rest + b, true)
  {
    hide DecodeLoop, Used;
    var d := DecodeLoop(fields, p, a);
    LoopConfined(fields, p, a);
    assert DecodeLoop(fields, p, Used(a, d.rest) + (d.rest + b)) == Done(d.p, d.rest + b, true);
    SplitAt(a, d.rest, b);
  }

  /** Decoding a into a message and then b into the result. */
  function InTurn(fields: seq<Field>, slots: seq<Slot>, a: seq<byte>, b: seq<byte>): Option<seq<Slot>>
    requires |slots| == |fields|
  {
    match DecodeMessage(fields, slots, a)
    case None => None
    case Some(after) => DecodeMessage(fields, after, b)
  }

  /** The payloads a and b can be joined: by how the loop ends on a. If it reaches the end, b either
    * fails, or a and b each carry every required field, or not even both together do. If a zero tag
    * stops it, a lacks a required field, or b carries them all and changes nothing. If it fails, b
    * does not complete the field it fails on to an acceptable message. */
  predicate Joinable(fields: seq<Field>, slots: seq<Slot>, a: seq<byte>, b: seq<byte>)
    requires |slots| == |fields|
  {
    match DecodeLoop(fields, Progress(slots, {}), a)
    case Done(p, _, false) =>
      (match DecodeLoop(fields, Progress(p.slots, {}), b)
       case Bad => true
       case Done(q, _, _) =>
         || (AllRequiredSeen(fields, p.seen) && AllRequiredSeen(fields, q.seen))
         || !AllRequiredSeen(fields, p.seen + q.seen))
    case Done(p, _, true) => AllRequiredSeen(fields, p.seen) ==> DecodeMessage(fields, p.slots, b) == Some(p.slots)
    case Bad =>
      var k := StuckAt(fields, Progress(slots, {}), a);
      match DecodeLoop(fields, k.p, k.rest + b)
      case Bad => true
      case Done(q, _, _) => !AllRequiredSeen(fields, q.seen)
  }

  /** Merging: for all payloads, decoding a into a message and then b into the result is decoding
    * a + b exactly if the two can be joined. */
  lemma MessagesMerge(fields: seq<Field>, slots: seq<Slot>, a: seq<byte>, b: seq<byte>)
    requires |slots| == |fields|
    ensures InTurn(fields, slots, a, b) == DecodeMessage(fields, slots, a + b) <==> Joinable(fields, slots, a, b)
  {
    hide DecodeLoop, StuckAt;
    match DecodeLoop(fields, Progress(slots, {}), a)
    case Done(p, _, stopped) =>
      if stopped {
        StoppedFold(fields, Progress(slots, {}), a, b);
      } else {
        LeftFold(fields, Progress(slots, {}), a, b);
        SeenAdds(fields, Progress(p.slots, {}), p.seen, b);
        assert p.seen + {} == p.seen;
        SeenGrows(fields, p.seen, DecodeLoop(fields, Progress(p.slots, {}), b));
      }
    case Bad => StuckFold(fields, Progress(slots, {}), a, b);
  }

  lemma SeenGrows(fields: seq<Field>, seen: set<nat>, d: LoopResult)
    ensures d.Done? && AllRequiredSeen(fields, seen) ==> AllRequiredSeen(fields, seen + d.p.seen)
    ensures d.Done? && AllRequiredSeen(fields, d.p.seen) ==> AllRequiredSeen(fields, seen + d.p.seen)
  {
  }

  predicate Mergeable(f: Field)
  {
    f.ltype.SubmessageT? && (f.rule.Required? || f.rule.Optional? || f.rule.Singular?)
  }

  /** The slot holds a message of the field's type. */
  predicate HoldsMessage(f: Field, s: Slot)
    requires f.ltype.SubmessageT?
  {
    Current(f, s).Sub? && |Current(f, s).slots| == |f.ltype.fields|
  }

  function Held(f: Field, s: Slot): (slots: seq<Slot>)
    requires f.ltype.SubmessageT? && HoldsMessage(f, s)
    ensures |slots| == |f.ltype.fields|
  {
    Current(f, s).slots
  }

  /** Two occurrences of a required, optional or singular submessage field, whatever their payloads,
    * do what one occurrence with both payloads does exactly if the payloads can be joined. */
  lemma OccurrencesMerge(fields: seq<Field>, i: nat, slots: seq<Slot>, wireType: nat, a: seq<byte>, b: seq<byte>, x: seq<byte>)
    requires i < |fields| == |slots| && Mergeable(fields[i]) && HoldsMessage(fields[i], slots[i])
    requires |a| + |b| < 0x1_0000_0000
    ensures var first := DecodeSlot(fields, i, slots, wireType, Delimited(a) + (Delimited(b) + x));
            var both := if first.Got? then DecodeSlot(fields, i, first.value, wireType, first.rest) else Fail;
            both == DecodeSlot(fields, i, slots, wireType, Delimited(a + b) + x)
            <==> Joinable(fields[i].ltype.fields, Held(fields[i], slots[i]), a, b)
  {
    hide DecodeSlot, DecodeValue, DecodeMessage, DecodeLoop, Joinable, Delimited;
    var f := fields[i];
    var sub, held := f.ltype.fields, Held(f, slots[i]);
    MessagesMerge(sub, held, a, b);
    PayloadRead(f, slots[i], a, Delimited(b) + x);
    PayloadRead(f, slots[i], a + b, x);
    ValueStored(fields, i, slots, wireType, Delimited(a) + (Delimited(b) + x));
    ValueStored(fields, i, slots, wireType, Delimited(a + b) + x);
    if DecodeMessage(sub, held, a).Some? {
      var after := DecodeMessage(sub, held, a).value;
      var first := slots[i := Kept(f, Sub(after))];
      PayloadRead(f, first[i], b, x);
      ValueStored(fields, i, first, wireType, Delimited(b) + x);
      Overwritten(slots, i, f, Sub(after), DecodeMessage(sub, after, b), DecodeMessage(sub, held, a + b));
    }
  }

  /** What the slot of a field that is neither an array nor in a union holds once v is stored. */
  function Kept(f: Field, v: Value): Slot
  {
    if f.rule.Optional? then Flagged(true, v) else Plain(v)
  }

  lemma ValueStored(fields: seq<Field>, i: nat, slots: seq<Slot>, wireType: nat, s: seq<byte>)
    requires i < |fields| == |slots| && Mergeable(fields[i])
    ensures DecodeSlot(fields, i, slots, wireType, s) ==
            match DecodeValue(fields[i], Current(fields[i], slots[i]), s)
            case Got(v, r) => Got(slots[i := Kept(fields[i], v)], r)
            case Fail => Fail
  {
    hide DecodeValue;
  }

  lemma Overwritten(slots: seq<Slot>, i: nat, f: Field, v: Value, m: Option<seq<Slot>>, n: Option<seq<Slot>>)
    requires i < |slots|
    ensures m.Some? ==> slots[i := Kept(f, v)][i := Kept(f, Sub(m.value))] == slots[i := Kept(f, Sub(m.value))]
    ensures m.Some? && n.Some? && slots[i := Kept(f, Sub(m.value))] == slots[i := Kept(f, Sub(n.value))] ==> m == n
  {
    if m.Some? && n.Some? && slots[i := Kept(f, Sub(m.value))] == slots[i := Kept(f, Sub(n.value))] {
      assert slots[i := Kept(f, Sub(m.value))][i] == slots[i := Kept(f, Sub(n.value))][i];
    }
  }

  /** A submessage payload behind its length. */
  lemma PayloadRead(f: Field, s: Slot, a: seq<byte>, x: seq<byte>)
    requires f.ltype.SubmessageT? && HoldsMessage(f, s) && |a| < 0x1_0000_0000
    ensures DecodeValue(f, Current(f, s), Delimited(a) + x) ==
            match DecodeMessage(f.ltype.fields, Held(f, s), a)
            case Some(slots) => Got(Sub(slots), x)
            case None => Fail
  {
    hide DecodeMessage, Delimited, Decode32;
    DelimitedRead(a, x);
  }

  /** A member of a union gets the value the input says, whatever the union held before. */
  lemma UnionReplaced(fields: seq<Field>, i: nat, slots: seq<Slot>, other: seq<Slot>, wireType: nat, s: seq<byte>)
    requires i < |fields| == |slots| == |other| && fields[i].rule.Oneof?
    ensures var p, q := DecodeSlot(fields, i, slots, wireType, s), DecodeSlot(fields, i, other, wireType, s);
            && p.Got? == q.Got?
            && (p.Got? ==> p.rest == q.rest && p.value[i] == q.value[i])
  {
    hide DecodeValue;
  }

  /** A new array entry gets the value the input says, whatever the array held before. */
  lemma EntryAppended(fields: seq<Field>, i: nat, slots: seq<Slot>, other: seq<Slot>, wireType: nat, s: seq<byte>)
    requires i < |fields| == |slots| == |other| && fields[i].rule.Repeated? && fields[i].ltype.SubmessageT?
    requires slots[i].Items? && |slots[i].items| < fields[i].rule.max
    requires other[i].Items? && |other[i].items| < fields[i].rule.max
    ensures var p, q := DecodeSlot(fields, i, slots, wireType, s), DecodeSlot(fields, i, other, wireType, s);
            && p.Got? == q.Got?
            && (p.Got? ==>
                  exists v :: p.value == slots[i := Items(slots[i].items + [v])] && q.value == other[i := Items(other[i].items + [v])])
  {
    hide DecodeValue;
    var v := DecodeValue(fields[i], DefaultValue(fields[i]), s);
    if v.Got? {
      assert DecodeSlot(fields, i, slots, wireType, s).value == slots[i := Items(slots[i].items + [v.value])];
    }
  }

  // ---------------------------------------------------------------- where merging fails

  /** A message of one number. */
  function Single(rule: Rule): seq<Field>
  {
    [Field(1, rule, UVarintT, 4, Num(0), 0, 0)]
  }

  /** Field 1 with the number 1. */
  lemma SingleDecodes(rule: Rule, s: Slot)
    requires rule.Required? || rule.Optional?
    ensures DecodeLoop(Single(rule), Progress([s], {}), [8, 1]) ==
            Done(if rule.Required? then Progress([Plain(Num(1))], {0}) else Progress([Flagged(true, Num(1))], {}), [], false)
    ensures DecodeLoop(Single(rule), Progress([s], {}), []) == Done(Progress([s], {}), [], false)
    ensures DecodeLoop(Single(rule), Progress([s], {}), [0]) == Done(Progress([s], {}), [], true)
    ensures DecodeLoop(Single(rule), Progress([s], {}), [8]) == Bad
  {
    hide Decode32From;
    assert [8, 1][1..] == [1] && [8][1..] == [] && [0][1..] == [] && [1][1..] == [];
    assert [1][..1] == [1] && Decode64([1]) == Got(1, []) by { assert Groups([1]) == 1 + 128 * Groups([]); }
    var v := if rule.Required? then Plain(Num(1)) else Flagged(true, Num(1));
    assert [s][0 := v] == [v];
  }

  lemma SingleRequired(rule: Rule, seen: set<nat>)
    requires rule.Required? || rule.Optional?
    ensures AllRequiredSeen(Single(rule), seen) <==> rule.Optional? || 0 in seen
  {
    assert Single(rule)[..0] == [] && Single(rule)[..1] == Single(rule);
  }

  /** A required field that only the second payload carries, none of it in the first: in turn the
    * first payload is rejected, joined the two are accepted. */
  lemma FirstLacksRequired(s: Slot)
    ensures InTurn(Single(Required), [s], [], [8, 1]) == None
    ensures DecodeMessage(Single(Required), [s], [] + [8, 1]) == Some([Plain(Num(1))])
  {
    hide DecodeLoop, Single, AllRequiredSeen;
    SingleDecodes(Required, s);
    SingleRequired(Required, {});
    SingleRequired(Required, {0});
    assert [] + [8, 1] == [8, 1];
  }

  /** The same the other way round: the second payload is rejected. */
  lemma SecondLacksRequired(s: Slot)
    ensures InTurn(Single(Required), [s], [8, 1], []) == None
    ensures DecodeMessage(Single(Required), [s], [8, 1] + []) == Some([Plain(Num(1))])
  {
    hide DecodeLoop, Single, AllRequiredSeen;
    SingleDecodes(Required, s);
    SingleDecodes(Required, Plain(Num(1)));
    SingleRequired(Required, {});
    SingleRequired(Required, {0});
    assert [8, 1] + [] == [8, 1];
  }

  /** A first payload that a zero tag stops: in turn the second payload is read, joined it is not. */
  lemma FirstStopped()
    ensures var s := Flagged(false, Num(0));
            && InTurn(Single(Optional), [s], [0], [8, 1]) == Some([Flagged(true, Num(1))])
            && DecodeMessage(Single(Optional), [s], [0] + [8, 1]) == Some([s])
  {
    hide DecodeLoop, Single, AllRequiredSeen;
    var s := Flagged(false, Num(0));
    SingleDecodes(Optional, s);
    SingleRequired(Optional, {});
    StoppedFold(Single(Optional), Progress([s], {}), [0], [8, 1]);
  }

  /** A first payload that is cut off inside a field: in turn it is rejected, joined it is read. */
  lemma FirstCutOff(s: Slot)
    ensures InTurn(Single(Optional), [s], [8], [1]) == None
    ensures DecodeMessage(Single(Optional), [s], [8] + [1]) == Some([Flagged(true, Num(1))])
  {
    hide DecodeLoop, Single, AllRequiredSeen;
    SingleDecodes(Optional, s);
    SingleRequired(Optional, {});
    assert [8] + [1] == [8, 1];
  }

  /** A message of two optional numbers. */
  function Pair(): seq<Field>
  {
    [Field(1, Optional, UVarintT, 4, Num(0), 0, 0), Field(2, Optional, UVarintT, 4, Num(0), 0, 0)]
  }

  function PairOf(x: bool, y: bool): seq<Slot>
  {
    [Flagged(x, Num(if x then 1 else 0)), Flagged(y, Num(if y then 2 else 0))]
  }

  /** The pair as the only member of a union. */
  function Union(): seq<Field>
  {
    [Field(1, Oneof(0), SubmessageT(Pair()), 16, Num(0), 0, 0)]
  }

  /** The payload with the chosen numbers. */
  function Payload(x: bool, y: bool): seq<byte>
  {
    (if x then [8, 1] else []) + (if y then [16, 2] else [])
  }

  lemma NumberSlots()
    ensures EncodeSlot(Pair()[0], Flagged(true, Num(1))) == Some([8, 1])
    ensures EncodeSlot(Pair()[1], Flagged(true, Num(2))) == Some([16, 2])
    ensures EncodeSlot(Pair()[0], Flagged(false, Num(0))) == EncodeSlot(Pair()[1], Flagged(false, Num(0))) == Some([])
  {
    assert Encode(8) == [8] && Encode(16) == [16] && Encode(1) == [1] && Encode(2) == [2];
    assert [8] + [1] == [8, 1] && [16] + [2] == [16, 2];
  }

  lemma PayloadEncodes(x: bool, y: bool)
    ensures EncodeMessage(Pair(), PairOf(x, y)) == Some(Payload(x, y))
    ensures StoredAll(Pair(), PairOf(x, y)) == PairOf(x, y)
  {
    NumberSlots();
    hide EncodeSlot;
    var fields, slots := Pair(), PairOf(x, y);
    assert fields[1..] == [fields[1]] && slots[1..] == [slots[1]];
    assert fields[1..][1..] == [] && slots[1..][1..] == [];
    assert EncodeMessage([], []) == Some([]);
    assert EncodeMessage(fields[1..], slots[1..]) == Some((if y then [16, 2] else []) + []);
    assert (if y then [16, 2] else []) + [] == if y then [16, 2] else [];
  }

  lemma PairTyped(x: bool, y: bool)
    ensures WellFormed(Pair()) && TypedMessage(Pair(), PairOf(x, y))
  {
  }

  lemma PayloadShort(x: bool, y: bool)
    ensures |Payload(x, y)| <= 4
  {
  }

  lemma PayloadDecodes(x: bool, y: bool, s: Slot)
    ensures DecodeSlot(Union(), 0, [s], WT_STRING, Delimited(Payload(x, y))) == Got([Chosen(Sub(PairOf(x, y)))], [])
  {
    PayloadEncodes(x, y);
    PairTyped(x, y);
    hide Pair, PairOf, Payload, WellFormed, TypedMessage, Defaults, Delimited, Decode32, DecodeMessage, DecodeLoop, EncodeMessage, FitsAll, StoredAll;
    PayloadShort(x, y);
    MessageFits(Pair(), PairOf(x, y));
    MessageRoundTrip(Pair(), PairOf(x, y));
    var f := Union()[0];
    assert Current(f, Unchosen) == DefaultValue(f) == Sub(Defaults(Pair()));
    PayloadRead(f, Unchosen, Payload(x, y), []);
    assert Delimited(Payload(x, y)) + [] == Delimited(Payload(x, y));
    hide DecodeValue;
    assert SelectArm(Union(), [s], 0, Sub(PairOf(x, y))) == [Chosen(Sub(PairOf(x, y)))];
  }

  /** A union loses what an earlier occurrence said: decoding field 1 and then field 2 of the pair
    * leaves field 2 alone, though decoding both payloads at once leaves both. */
  lemma UnionDoesNotMerge(s: Slot)
    ensures var first := DecodeSlot(Union(), 0, [s], WT_STRING, Delimited(Payload(true, false)));
            && first.Got?
            && DecodeSlot(Union(), 0, first.value, WT_STRING, Delimited(Payload(false, true))) == Got([Chosen(Sub(PairOf(false, true)))], [])
    ensures Payload(true, false) + Payload(false, true) == Payload(true, true)
    ensures DecodeSlot(Union(), 0, [s], WT_STRING, Delimited(Payload(true, true))) == Got([Chosen(Sub(PairOf(true, true)))], [])
    ensures PairOf(false, true) != PairOf(true, true)
  {
    hide DecodeSlot, Delimited;
    PayloadDecodes(true, false, s);
    PayloadDecodes(false, true, Chosen(Sub(PairOf(true, false))));
    PayloadDecodes(true, true, s);
    assert Flagged(false, Num(0)) != Flagged(true, Num(1));
  }
}
