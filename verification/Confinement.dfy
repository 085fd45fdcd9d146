/**
 * Every decoder takes a prefix of its input and its outcome depends on nothing after it.
 * From this follow stream confinement, that decoding a concatenation is decoding one part after
 * the other, and that unknown fields are invisible.
 */
module Confinement {
  import opened Bytes
  import opened Varint
  import opened Schema
  import opened Wire

  /** What was read when `rest` is left. */
  function Used(s: seq<byte>, rest: seq<byte>): seq<byte>
    requires |rest| <= |s|
  {
    s[..|s| - |rest|]
  }

  predicate IsSuffix(s: seq<byte>, rest: seq<byte>)
  {
    |rest| <= |s| && s == Used(s, rest) + rest
  }

  lemma SuffixTrans(s: seq<byte>, r: seq<byte>, t: seq<byte>)
    requires IsSuffix(s, r) && IsSuffix(r, t)
    ensures IsSuffix(s, t) && Used(s, t) == Used(s, r) + Used(r, t)
  {
    var a, b := Used(s, r), Used(r, t);
    assert s == a + (b + t) == (a + b) + t;
    assert |s| - |t| == |a + b|;
  }

  lemma SplitAt(s: seq<byte>, r: seq<byte>, x: seq<byte>)
    requires IsSuffix(s, r)
    ensures Used(s, r) + r == s && Used(s, r) + (r + x) == s + x
  {
    assert Used(s, r) + (r + x) == (Used(s, r) + r) + x;
  }

  /** One more byte in front. */
  lemma UsedCons(s: seq<byte>, r: seq<byte>, x: seq<byte>)
    requires s != [] && IsSuffix(s[1..], r)
    ensures IsSuffix(s, r) && |r| < |s|
    ensures Used(s, r) + x != [] && (Used(s, r) + x)[0] == s[0]
    ensures (Used(s, r) + x)[1..] == Used(s[1..], r) + x
  {
    var h, y := s[0], Used(s[1..], r);
    assert s == [h] + s[1..] == [h] + (y + r) == ([h] + y) + r;
    assert Used(s, r) == [h] + y;
    assert [h] + y + x == [h] + (y + x);
  }

  lemma UsedOne(s: seq<byte>, x: seq<byte>)
    requires s != []
    ensures IsSuffix(s, s[1..]) && Used(s, s[1..]) == [s[0]] && ([s[0]] + x)[1..] == x
  {
  }

  lemma {:induction false} Local32From(s: seq<byte>, bitpos: nat, result: nat, x: seq<byte>)
    requires Decode32From(s, bitpos, result).Got?
    ensures var Got(v, r) := Decode32From(s, bitpos, result);
            IsSuffix(s, r) && |r| < |s| && Decode32From(Used(s, r) + x, bitpos, result) == Got(v, x)
  {
    hide Or, Pow2, U32, Used, IsSuffix;
    var Got(v, r) := Decode32From(s, bitpos, result);
    var acc := if bitpos >= 32 then result else Or(result, U32(s[0] % 128 * Pow2(bitpos)));
    if s[0] >= 128 {
      Local32From(s[1..], (bitpos + 7) % 256, acc, x);
      UsedCons(s, r, x);
    } else {
      UsedOne(s, x);
    }
  }

  lemma Local32(s: seq<byte>, x: seq<byte>)
    requires Decode32(s).Got?
    ensures var Got(v, r) := Decode32(s);
            IsSuffix(s, r) && |r| < |s| && Decode32(Used(s, r) + x) == Got(v, x)
  {
    hide Decode32From, Used, IsSuffix;
    var Got(v, r) := Decode32(s);
    if s[0] >= 128 {
      Local32From(s[1..], 7, s[0] % 128, x);
      UsedCons(s, r, x);
    } else {
      UsedOne(s, x);
    }
  }

  lemma {:induction false} LocalSpan(s: seq<byte>, x: seq<byte>)
    requires Span(s) < |s|
    ensures Span(s[..Span(s) + 1] + x) == Span(s)
  {
    var c := s[..Span(s) + 1];
    if s[0] >= 128 {
      LocalSpan(s[1..], x);
      assert (c + x)[1..] == s[1..][..Span(s[1..]) + 1] + x;
    }
  }

  lemma Local64(s: seq<byte>, x: seq<byte>)
    requires Decode64(s).Got?
    ensures var Got(v, r) := Decode64(s);
            IsSuffix(s, r) && Decode64(Used(s, r) + x) == Got(v, x)
  {
    hide Groups;
    LocalSpan(s, x);
    var Got(v, r) := Decode64(s);
    var c := s[..Span(s) + 1];
    assert Used(s, r) == c;
    assert (c + x)[..|c|] == c && (c + x)[|c|..] == x;
  }

  lemma LocalTake(s: seq<byte>, n: nat, x: seq<byte>)
    requires n <= |s|
    ensures var Got(b, r) := Take(s, n);
            IsSuffix(s, r) && Used(s, r) == b && Take(Used(s, r) + x, n) == Got(b, x)
  {
    assert (s[..n] + x)[..n] == s[..n] && (s[..n] + x)[n..] == x;
  }

  /** A length-delimited payload takes its declared length from the parent, whatever is in it. */
  lemma LocalDelimited(s: seq<byte>, x: seq<byte>)
    requires TakeDelimited(s).Got?
    ensures var Got(b, r) := TakeDelimited(s);
            && IsSuffix(s, r) && |r| < |s| && Decode32(s).value == |b|
            && TakeDelimited(Used(s, r) + x) == Got(b, x)
  {
    hide Decode32;
    var Got(n, r1) := Decode32(s);
    var Got(b, r) := Take(r1, n);
    LocalTake(r1, n, x);
    Local32(s, Used(r1, r) + x);
    SuffixTrans(s, r1, r);
    assert Used(s, r) + x == Used(s, r1) + (Used(r1, r) + x);
  }

  lemma LocalNumber(t: LType, size: nat, s: seq<byte>, x: seq<byte>)
    requires DecodeNumber(t, size, s).Got?
    ensures var Got(v, r) := DecodeNumber(t, size, s);
            IsSuffix(s, r) && DecodeNumber(t, size, Used(s, r) + x) == Got(v, x)
  {
    hide Decode64, Signed, Unzigzag, FromLittleEndian, Modulus;
    if t.Fixed32T? {
      LocalTake(s, 4, x);
    } else if t.Fixed64T? {
      LocalTake(s, 8, x);
    } else {
      Local64(s, x);
    }
  }

  lemma LocalBlob(f: Field, s: seq<byte>, x: seq<byte>)
    requires DecodeBlob(f, s).Got?
    ensures var Got(v, r) := DecodeBlob(f, s);
            IsSuffix(s, r) && DecodeBlob(f, Used(s, r) + x) == Got(v, x)
  {
    hide Decode32, CString, Zeros;
    var Got(n, r1) := Decode32(s);
    if f.ltype.FixedBytesT? && n == 0 {
      Local32(s, x);
    } else {
      LocalTake(r1, n, x);
      var Got(b, r) := Take(r1, n);
      Local32(s, b + x);
      SuffixTrans(s, r1, r);
      assert Used(s, r) + x == Used(s, r1) + (b + x);
    }
  }

  lemma LocalValue(f: Field, cur: Value, s: seq<byte>, x: seq<byte>)
    requires DecodeValue(f, cur, s).Got?
    ensures var Got(v, r) := DecodeValue(f, cur, s);
            IsSuffix(s, r) && DecodeValue(f, cur, Used(s, r) + x) == Got(v, x)
  {
    hide DecodeNumber, DecodeBlob, TakeDelimited, DecodeMessage, Defaults;
    match f.ltype {
      case SubmessageT(_) => LocalDelimited(s, x);
      case BytesT => LocalBlob(f, s, x);
      case StringT => LocalBlob(f, s, x);
      case FixedBytesT => LocalBlob(f, s, x);
      case t => LocalNumber(t, f.size, s, x);
    }
  }

  lemma LocalSlot(fields: seq<Field>, i: nat, slots: seq<Slot>, wireType: nat, s: seq<byte>, x: seq<byte>)
    requires i < |fields| == |slots|
    requires DecodeSlot(fields, i, slots, wireType, s).Got?
    ensures var Got(v, r) := DecodeSlot(fields, i, slots, wireType, s);
            IsSuffix(s, r) && DecodeSlot(fields, i, slots, wireType, Used(s, r) + x) == Got(v, x)
  {
    hide DecodeValue, TakeDelimited, DecodePacked, SelectArm, DefaultValue;
    var f := fields[i];
    if f.rule.Repeated? && wireType == WT_STRING && Packable(f.ltype) {
      LocalDelimited(s, x);
    } else if f.rule.Repeated? || f.rule.Oneof? {
      LocalValue(f, DefaultValue(f), s, x);
    } else {
      LocalValue(f, Current(f, slots[i]), s, x);
    }
  }

  lemma LocalSkip(wireType: nat, s: seq<byte>, x: seq<byte>)
    requires SkipField(wireType, s).Got?
    ensures var r := SkipField(wireType, s).rest;
            IsSuffix(s, r) && SkipField(wireType, Used(s, r) + x) == Got((), x)
  {
    hide TakeDelimited, Span;
    var r := SkipField(wireType, s).rest;
    if wireType == WT_VARINT {
      LocalSpan(s, x);
      assert Used(s, r) == s[..Span(s) + 1];
    } else if wireType == WT_STRING {
      LocalDelimited(s, x);
    }
  }

  lemma LocalField(fields: seq<Field>, p: Progress, tag: nat, wireType: nat, s: seq<byte>, x: seq<byte>)
    requires |p.slots| == |fields|
    requires DecodeField(fields, p, tag, wireType, s).Got?
    ensures var Got(q, r) := DecodeField(fields, p, tag, wireType, s);
            IsSuffix(s, r) && DecodeField(fields, p, tag, wireType, Used(s, r) + x) == Got(q, x)
  {
    hide DecodeSlot, SkipField, Find;
    match Find(fields, tag)
    case None => LocalSkip(wireType, s, x);
    case Some(i) => LocalSlot(fields, i, p.slots, wireType, s, x);
  }

  /** One turn of the field loop on an input that continues with x. */
  lemma LocalTurn(fields: seq<Field>, p: Progress, s: seq<byte>, x: seq<byte>)
    requires |p.slots| == |fields| && s != []
    requires Decode32(s).Got? && Decode32(s).value != 0
    requires var Got(t, r) := Decode32(s); DecodeField(fields, p, t / 8, t % 8, r).Got?
    ensures var Got(t, r) := Decode32(s);
            var Got(q, r') := DecodeField(fields, p, t / 8, t % 8, r);
            && IsSuffix(s, r') && |r'| < |s|
            && DecodeLoop(fields, p, Used(s, r') + x) == DecodeLoop(fields, q, x)
  {
    hide Decode32, DecodeField;
    var Got(t, r) := Decode32(s);
    var Got(q, r') := DecodeField(fields, p, t / 8, t % 8, r);
    LocalField(fields, p, t / 8, t % 8, r, x);
    Local32(s, Used(r, r') + x);
    SuffixTrans(s, r, r');
    var y := Used(s, r') + x;
    assert y == Used(s, r) + (Used(r, r') + x);
    assert Decode32(y) == Got(t, Used(r, r') + x);
  }

  lemma TurnTaken(fields: seq<Field>, p: Progress, s: seq<byte>)
    requires |p.slots| == |fields| && s != []
    requires DecodeLoop(fields, p, s).Done? && !DecodeLoop(fields, p, s).stopped
    ensures Decode32(s).Got? && Decode32(s).value != 0
    ensures var Got(t, r) := Decode32(s); DecodeField(fields, p, t / 8, t % 8, r).Got?
  {
    hide Decode32, DecodeField;
  }

  /** Decoding is a left fold: if `a` parses to its end, decoding `a + b` is decoding `a` and then
    * decoding `b` into the result. */
  lemma {:induction false} LeftFold(fields: seq<Field>, p: Progress, a: seq<byte>, b: seq<byte>)
    requires |p.slots| == |fields|
    requires DecodeLoop(fields, p, a).Done? && !DecodeLoop(fields, p, a).stopped
    ensures DecodeLoop(fields, p, a + b) == DecodeLoop(fields, DecodeLoop(fields, p, a).p, b)
    decreases |a|
  {
    if a == [] {
      assert a + b == b;
    } else {
      hide Decode32, DecodeField, DecodeLoop, Used, IsSuffix;
      TurnTaken(fields, p, a);
      var Got(t, r) := Decode32(a);
      var Got(q, r') := DecodeField(fields, p, t / 8, t % 8, r);
      LocalTurn(fields, p, a, r' + b);
      LocalTurn(fields, p, a, r');
      SplitAt(a, r', b);
      LeftFold(fields, q, r', b);
    }
  }

  /** A field whose tag the descriptor does not know and whose payload is well formed. */
  predicate UnknownField(fields: seq<Field>, u: seq<byte>)
  {
    && Decode32(u).Got?
    && var Got(t, r) := Decode32(u);
       && t != 0 && Find(fields, t / 8).None? && !(t / 8 == 0 && fields == [])
       && SkipField(t % 8, r) == Got((), [])
  }

  /** Unknown fields between known ones change nothing. */
  lemma UnknownFieldsInvisible(fields: seq<Field>, p: Progress, a: seq<byte>, u: seq<byte>, b: seq<byte>)
    requires |p.slots| == |fields| && UnknownField(fields, u)
    requires DecodeLoop(fields, p, a).Done? && !DecodeLoop(fields, p, a).stopped
    ensures DecodeLoop(fields, p, a + u + b) == DecodeLoop(fields, p, a + b)
  {
    hide DecodeField, SkipField, Find;
    var q := DecodeLoop(fields, p, a).p;
    var Got(t, r) := Decode32(u);
    UnknownTurn(fields, q, t, r);
    Local32(u, []);
    LocalTurn(fields, q, u, b);
    assert Used(u, []) == u;
    assert a + u + b == a + (u + b);
    LeftFold(fields, p, a, u + b);
    LeftFold(fields, p, a, b);
  }

  lemma UnknownTurn(fields: seq<Field>, p: Progress, t: nat, r: seq<byte>)
    requires |p.slots| == |fields| && Find(fields, t / 8).None? && !(t / 8 == 0 && fields == [])
    requires SkipField(t % 8, r) == Got((), [])
    ensures DecodeField(fields, p, t / 8, t % 8, r) == Got(p, [])
  {
  }

  /** A key without a field and with a payload that can be skipped is passed over exactly if it is
    * not the case that the table is empty and the key's field number zero. */
  lemma UnmatchedField(fields: seq<Field>, p: Progress, tag: nat, wireType: nat, s: seq<byte>)
    requires |p.slots| == |fields| && Find(fields, tag).None? && SkipField(wireType, s).Got?
    ensures DecodeField(fields, p, tag, wireType, s) == Got(p, SkipField(wireType, s).rest) <==> !(tag == 0 && fields == [])
    ensures tag == 0 && fields == [] ==> DecodeField(fields, p, tag, wireType, s) == Fail
  {
  }

  /** An empty message type rejects the key with field number 0 and wire type 2 and its empty
    * payload, which every message type that has a field skips. */
  lemma EmptyTableRejects(fields: seq<Field>, p: Progress)
    requires |p.slots| == |fields| && Find(fields, 0).None?
    ensures DecodeLoop(fields, p, [2, 0]) == if fields == [] then Bad else Done(p, [], false)
  {
    hide Find;
    assert Decode32([2, 0]) == Got(2, [0]) by { assert [2, 0][1..] == [0]; }
    assert Decode32([0]) == Got(0, []) by { assert [0][1..] == []; }
    assert SkipField(2, [0]) == Got((), []);
    UnmatchedField(fields, p, 0, 2, [0]);
    hide DecodeField;
    if fields != [] {
      assert DecodeField(fields, p, 0, 2, [0]) == Got(p, []);
      assert DecodeLoop(fields, p, []) == Done(p, [], false);
    }
  }

  /** The loop accounts for every byte: what it leaves is a suffix of its input, empty unless a
    * zero tag stopped it, and that tag is the last byte string it read. */
  lemma {:induction false} LoopConfined(fields: seq<Field>, p: Progress, s: seq<byte>)
    requires |p.slots| == |fields| && DecodeLoop(fields, p, s).Done?
    ensures var d := DecodeLoop(fields, p, s);
            && IsSuffix(s, d.rest)
            && (!d.stopped ==> d.rest == [])
            && forall x :: d.stopped ==> DecodeLoop(fields, p, Used(s, d.rest) + x) == Done(d.p, x, true)
    decreases |s|
  {
    hide Decode32, DecodeField;
    var d := DecodeLoop(fields, p, s);
    if s != [] {
      var Got(t, r) := Decode32(s);
      if t == 0 {
        forall x ensures DecodeLoop(fields, p, Used(s, d.rest) + x) == Done(d.p, x, true) {
          Local32(s, x);
        }
        Local32(s, []);
      } else {
        var Got(q, r') := DecodeField(fields, p, t / 8, t % 8, r);
        LocalTurn(fields, p, s, r');
        LoopConfined(fields, q, r');
        SuffixTrans(s, r', d.rest);
        forall x | d.stopped ensures DecodeLoop(fields, p, Used(s, d.rest) + x) == Done(d.p, x, true) {
          LocalTurn(fields, p, s, Used(r', d.rest) + x);
          assert Used(s, d.rest) + x == Used(s, r') + (Used(r', d.rest) + x);
        }
      }
    }
  }
}
