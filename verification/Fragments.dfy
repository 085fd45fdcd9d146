/**
 * DTLS handshake fragments on the wire (RFC 6347 section 4.2.2; dtls1_parse_fragment,
 * dtls1_init_message and dtls1_finish_message in d1_both.cc).
 */
module Fragments {
  import opened Bytes
  import opened Cbs

  const HM_HEADER_LENGTH: nat := 12

  /** A handshake message: type and body. */
  datatype Msg = Msg(kind: nat, body: seq<byte>)

  /** hm_header_st and the fragment's body, whose length is frag_len. */
  datatype Fragment = Fragment(kind: nat, msgLen: nat, seq_: nat, off: nat, body: seq<byte>)

  /** Values that fit the header. */
  predicate Fits(f: Fragment)
  {
    f.kind < 0x100 && f.msgLen < 0x100_0000 && f.seq_ < 0x1_0000 && f.off < 0x100_0000 && |f.body| < 0x100_0000
  }

  function Serialize(f: Fragment): (s: seq<byte>)
    ensures |s| == HM_HEADER_LENGTH + |f.body|
  {
    ToBigEndian(f.kind, 1) + (ToBigEndian(f.msgLen, 3) + (ToBigEndian(f.seq_, 2) +
    (ToBigEndian(f.off, 3) + (ToBigEndian(|f.body|, 3) + f.body))))
  }

  /** dtls1_parse_fragment */
  function ParseFragment(s: seq<byte>): (p: Parsed<Fragment>)
    ensures p.Got? ==> |p.rest| < |s|
  {
    var (kind, r1) :- GetUint(s, 1);
    var (msgLen, r2) :- GetUint(r1, 3);
    var (seq_, r3) :- GetUint(r2, 2);
    var (off, r4) :- GetUint(r3, 3);
    var (len, r5) :- GetUint(r4, 3);
    var (body, r6) :- Take(r5, len);
    Got(Fragment(kind, msgLen, seq_, off, body), r6)
  }

  /** Parsing inverts serialisation, whatever follows the fragment. */
  lemma FragmentRoundTrip(f: Fragment, x: seq<byte>)
    requires Fits(f)
    ensures ParseFragment(Serialize(f) + x) == Got(f, x)
  {
    hide GetUint, ToBigEndian;
    var e5 := ToBigEndian(|f.body|, 3) + f.body;
    var e4 := ToBigEndian(f.off, 3) + e5;
    var e3 := ToBigEndian(f.seq_, 2) + e4;
    var e2 := ToBigEndian(f.msgLen, 3) + e3;
    UintRoundTrip(f.kind, 1, e2 + x);
    UintRoundTrip(f.msgLen, 3, e3 + x);
    UintRoundTrip(f.seq_, 2, e4 + x);
    UintRoundTrip(f.off, 3, e5 + x);
    UintRoundTrip(|f.body|, 3, f.body + x);
    Regroup(ToBigEndian(f.kind, 1), e2, x);
    Regroup(ToBigEndian(f.msgLen, 3), e3, x);
    Regroup(ToBigEndian(f.seq_, 2), e4, x);
    Regroup(ToBigEndian(f.off, 3), e5, x);
    Regroup(ToBigEndian(|f.body|, 3), f.body, x);
    assert (f.body + x)[..|f.body|] == f.body && (f.body + x)[|f.body|..] == x;
  }

  /** The header fields of what was parsed fit their widths. */
  lemma ParsedFits(s: seq<byte>)
    requires ParseFragment(s).Got?
    ensures Fits(ParseFragment(s).value)
  {
    hide BigEndian, Pow2;
    Widths();
    forall t: seq<byte> ensures BigEndian(t) < Pow2(8 * |t|) { BigEndianBound(t); }
  }

  lemma Regroup(a: seq<byte>, b: seq<byte>, x: seq<byte>)
    ensures (a + b) + x == a + (b + x)
  {
  }

  /** The piece of a message that starts at `off` and is n bytes long. */
  function Cut(m: Msg, seq_: nat, off: nat, n: nat): Fragment
    requires off + n <= |m.body|
  {
    Fragment(m.kind, |m.body|, seq_, off, m.body[off..off + n])
  }

  function Whole(m: Msg, seq_: nat): Fragment
  {
    Cut(m, seq_, 0, |m.body|)
  }

  /** dtls1_init_message, a body appended by the caller, and dtls1_finish_message: the length is
    * written in front of the body and then copied over the message length. */
  method FinishMessage(kind: nat, seq_: nat, body: seq<byte>) returns (ok: bool, msg: seq<byte>)
    requires kind < 0x100 && seq_ < 0x1_0000
    ensures ok == (|body| < 0x100_0000)
    ensures ok ==> msg == Serialize(Whole(Msg(kind, body), seq_))
  {
    hide ToBigEndian;
    if |body| >= 0x100_0000 {
      return false, [];
    }
    var cbb := ToBigEndian(kind, 1) + ToBigEndian(0, 3) + ToBigEndian(seq_, 2) + ToBigEndian(0, 3);
    msg := cbb + ToBigEndian(|body|, 3) + body;
    msg := msg[..1] + msg[HM_HEADER_LENGTH - 3..HM_HEADER_LENGTH] + msg[4..];
    assert body[0..|body|] == body;
    return true, msg;
  }
}
