/**
 * Handshake messages over a byte stream (s3_both.cc): a flight is cut into records and written in
 * whatever portions the transport takes; the reader appends record bodies to a buffer and takes
 * messages from its front. RFC 5246 sections 6.2.1 and 7.4.
 */
module StreamFraming {
  import opened Bytes
  import opened Cbs
  import opened Fragments

  const RT_HANDSHAKE: byte := 22
  const MAX_PLAIN: nat := 16384
  const MAX_ENCRYPTED: nat := 16704  // SSL3_RT_MAX_ENCRYPTED_LENGTH
  const INT_MAX: nat := 0x7FFF_FFFF

  /** The read cipher, which says what record versions are accepted. */
  datatype ReadCipher = NullCipher | Cipher(recordVersion: nat)
  {
    predicate VersionOk(version: nat)
    {
      match this
      case NullCipher => version / 256 == 3
      case Cipher(v) => version == v
    }
  }

  // ---------------------------------------------------------------- messages and records as bytes

  predicate Sendable(m: Msg)
  {
    m.kind < 0x100 && |m.body| < 0x100_0000
  }

  /** ssl3_init_message and ssl3_finish_message: type, 24-bit length, body. */
  function MsgBytes(m: Msg): (s: seq<byte>)
    ensures |s| == 4 + |m.body|
  {
    ToBigEndian(m.kind, 1) + (ToBigEndian(|m.body|, 3) + m.body)
  }

  /** parse_message */
  function ParseMessage(s: seq<byte>): (p: Parsed<Msg>)
    ensures p.Got? ==> |p.rest| < |s|
  {
    var (kind, r1) :- GetUint(s, 1);
    var (len, r2) :- GetUint(r1, 3);
    var (body, r3) :- Take(r2, len);
    Got(Msg(kind, body), r3)
  }

  lemma MessageRoundTrip(m: Msg, x: seq<byte>)
    requires Sendable(m)
    ensures ParseMessage(MsgBytes(m) + x) == Got(m, x)
  {
    hide GetUint, ToBigEndian;
    var e := ToBigEndian(|m.body|, 3) + m.body;
    UintRoundTrip(m.kind, 1, e + x);
    UintRoundTrip(|m.body|, 3, m.body + x);
    Regroup(ToBigEndian(m.kind, 1), e, x);
    Regroup(ToBigEndian(|m.body|, 3), m.body, x);
    assert (m.body + x)[..|m.body|] == m.body && (m.body + x)[|m.body|..] == x;
  }

  /** A sealed handshake record; the cipher is the identity. */
  function RecordBytes(version: nat, payload: seq<byte>): (s: seq<byte>)
    ensures |s| == 5 + |payload|
  {
    [RT_HANDSHAKE] + (ToBigEndian(version, 2) + (ToBigEndian(|payload|, 2) + payload))
  }

  /** tls_open_record and the check of the type in ssl3_open_handshake: one whole record off the
    * front; Fail when it is not all there yet, or has another version or type, or is too long. */
  function ParseRecord(cipher: ReadCipher, s: seq<byte>): Parsed<seq<byte>>
  {
    var (kind, r1) :- GetUint(s, 1);
    var (version, r2) :- GetUint(r1, 2);
    var (len, r3) :- GetUint(r2, 2);
    if !cipher.VersionOk(version) || len > MAX_ENCRYPTED || kind != RT_HANDSHAKE then Fail else Take(r3, len)
  }

  /** A record is read back exactly if its version is one the read cipher accepts, every 3.x version
    * before encryption, and its body is no longer than a cipher can have made it. */
  lemma RecordRoundTrip(cipher: ReadCipher, version: nat, payload: seq<byte>, x: seq<byte>)
    requires version < 0x1_0000 && |payload| < 0x1_0000
    ensures cipher.VersionOk(version) <==> if cipher.NullCipher? then 0x300 <= version <= 0x3FF else version == cipher.recordVersion
    ensures ParseRecord(cipher, RecordBytes(version, payload) + x) ==
            if cipher.VersionOk(version) && |payload| <= 16704 then Got(payload, x) else Fail
  {
    hide GetUint, ToBigEndian;
    var e2 := ToBigEndian(|payload|, 2) + payload;
    var e1 := ToBigEndian(version, 2) + e2;
    TypeByte();
    UintRoundTrip(22, 1, e1 + x);
    UintRoundTrip(version, 2, e2 + x);
    UintRoundTrip(|payload|, 2, payload + x);
    Regroup([RT_HANDSHAKE], e1, x);
    Regroup(ToBigEndian(version, 2), e2, x);
    Regroup(ToBigEndian(|payload|, 2), payload, x);
    assert (payload + x)[..|payload|] == payload && (payload + x)[|payload|..] == x;
  }

  lemma TypeByte()
    ensures ToBigEndian(22, 1) == [RT_HANDSHAKE]
  {
    assert ToBigEndian(0, 0) == [];
  }

  lemma RecordLength(cipher: ReadCipher, s: seq<byte>)
    requires ParseRecord(cipher, s).Got?
    ensures |ParseRecord(cipher, s).rest| + |ParseRecord(cipher, s).value| < |s|
  {
    hide BigEndian;
  }

  lemma UintPrefix(s: seq<byte>, n: nat, x: seq<byte>)
    requires GetUint(s, n).Got?
    ensures GetUint(s + x, n) == Got(GetUint(s, n).value, GetUint(s, n).rest + x)
  {
    hide BigEndian;
    assert (s + x)[..n] == s[..n] && (s + x)[n..] == s[n..] + x;
  }

  /** What can be parsed from a prefix of the stream is what the stream says. */
  lemma MessagePrefix(s: seq<byte>, x: seq<byte>)
    requires ParseMessage(s).Got?
    ensures ParseMessage(s + x) == Got(ParseMessage(s).value, ParseMessage(s).rest + x)
  {
    hide GetUint;
    UintPrefix(s, 1, x);
    var r1 := GetUint(s, 1).rest;
    UintPrefix(r1, 3, x);
    var r2 := GetUint(r1, 3).rest;
    var len := GetUint(r1, 3).value;
    assert (r2 + x)[..len] == r2[..len] && (r2 + x)[len..] == r2[len..] + x;
  }

  lemma RecordPrefix(cipher: ReadCipher, s: seq<byte>, x: seq<byte>)
    requires ParseRecord(cipher, s).Got?
    ensures ParseRecord(cipher, s + x) == Got(ParseRecord(cipher, s).value, ParseRecord(cipher, s).rest + x)
  {
    hide GetUint;
    UintPrefix(s, 1, x);
    var r1 := GetUint(s, 1).rest;
    UintPrefix(r1, 2, x);
    var r2 := GetUint(r1, 2).rest;
    UintPrefix(r2, 2, x);
    var r3, len := GetUint(r2, 2).rest, GetUint(r2, 2).value;
    assert (r3 + x)[..len] == r3[..len] && (r3 + x)[len..] == r3[len..] + x;
  }

  // ---------------------------------------------------------------- cutting

  /** The chunks of the do-while loop in ssl3_add_message. */
  function Chunks(msg: seq<byte>, max: nat): (cs: seq<seq<byte>>)
    requires max >= 1
    ensures forall c :: c in cs ==> |c| <= max
    decreases |msg|
  {
    if |msg| <= max then [msg] else [msg[..max]] + Chunks(msg[max..], max)
  }

  function Concat(cs: seq<seq<byte>>): seq<byte>
  {
    if cs == [] then [] else cs[0] + Concat(cs[1..])
  }

  /** The records that carry the given payloads, one after another. */
  function Wire(version: nat, cs: seq<seq<byte>>): seq<byte>
  {
    if cs == [] then [] else RecordBytes(version, cs[0]) + Wire(version, cs[1..])
  }

  lemma {:induction false} ChunksConcat(msg: seq<byte>, max: nat)
    requires max >= 1
    ensures Concat(Chunks(msg, max)) == msg
    decreases |msg|
  {
    if |msg| <= max {
      assert Concat([msg]) == msg + Concat([]) == msg;
    } else {
      ChunksConcat(msg[max..], max);
      var cs := Chunks(msg, max);
      assert cs[1..] == Chunks(msg[max..], max);
    }
  }

  /** Every piece but the last is as long as it can be, and only an empty message has an empty one. */
  lemma {:induction false} ChunkSizes(msg: seq<byte>, max: nat)
    requires max >= 1
    ensures var cs := Chunks(msg, max);
            && cs != [] && (forall i :: 0 <= i < |cs| - 1 ==> |cs[i]| == max)
            && (|cs| - 1) * max + |cs[|cs| - 1]| == |msg|
            && (cs[|cs| - 1] == [] <==> msg == [])
    decreases |msg|
  {
    if |msg| > max {
      var rest := Chunks(msg[max..], max);
      ChunkSizes(msg[max..], max);
      assert Chunks(msg, max) == [msg[..max]] + rest;
      OneMore(|rest|, max);
    }
  }

  lemma OneMore(n: nat, max: nat)
    ensures n * max == max + (n - 1) * max
  {
  }

  lemma {:induction false} ConcatAppend(a: seq<seq<byte>>, b: seq<seq<byte>>)
    ensures Concat(a + b) == Concat(a) + Concat(b)
  {
    if a == [] {
      assert a + b == b;
    } else {
      assert (a + b)[1..] == a[1..] + b;
      ConcatAppend(a[1..], b);
    }
  }

  lemma {:induction false} WireAppend(version: nat, a: seq<seq<byte>>, b: seq<seq<byte>>)
    ensures Wire(version, a + b) == Wire(version, a) + Wire(version, b)
  {
    hide RecordBytes;
    if a == [] {
      assert a + b == b;
    } else {
      assert (a + b)[1..] == a[1..] + b;
      WireAppend(version, a[1..], b);
    }
  }

  // ---------------------------------------------------------------- the writing side

  class StreamWriter {
    const version: nat
    const maxSendFragment: nat
    var pendingFlight: seq<byte>
    var pendingFlightOffset: nat

    constructor (version: nat, maxSendFragment: nat)
      ensures this.version == version && this.maxSendFragment == maxSendFragment
      ensures pendingFlight == [] && pendingFlightOffset == 0
    {
      this.version, this.maxSendFragment, pendingFlight, pendingFlightOffset := version, maxSendFragment, [], 0;
    }

    /** add_record_to_flight */
    method AddRecord(payload: seq<byte>)
      requires pendingFlightOffset == 0
      modifies this`pendingFlight
      ensures pendingFlight == old(pendingFlight) + RecordBytes(version, payload)
    {
      pendingFlight := pendingFlight + RecordBytes(version, payload);
    }

    /** ssl3_add_message */
    method AddMessage(msg: seq<byte>)
      requires pendingFlightOffset == 0 && maxSendFragment >= 1
      modifies this`pendingFlight
      ensures pendingFlight == old(pendingFlight) + Wire(version, Chunks(msg, maxSendFragment))
    {
      hide RecordBytes;
      var rest := msg;
      var more := true;
      assert pendingFlight + Wire(version, Chunks(rest, maxSendFragment)) == old(pendingFlight) + Wire(version, Chunks(msg, maxSendFragment));
      while more
        invariant more ==> pendingFlight + Wire(version, Chunks(rest, maxSendFragment)) ==
                           old(pendingFlight) + Wire(version, Chunks(msg, maxSendFragment))
        invariant !more ==> pendingFlight == old(pendingFlight) + Wire(version, Chunks(msg, maxSendFragment))
        decreases more, |rest|
      {
        hide Wire, Chunks;
        ghost var before, whole := pendingFlight, rest;
        var n := if |rest| <= maxSendFragment then |rest| else maxSendFragment;
        var chunk := rest[..n];
        rest := rest[n..];
        AddRecord(chunk);
        ChunkStep(version, whole, maxSendFragment);
        Regroup(before, RecordBytes(version, chunk), Wire(version, if rest == [] then [] else Chunks(rest, maxSendFragment)));
        NoWire(version, pendingFlight);
        more := rest != [];
      }
    }

    /** The loop of ssl3_flush_flight: ret is positive when all of the flight has been taken. */
    method WriteFlight(bio: (nat, nat) -> int) returns (ret: int, sent: seq<byte>)
      requires forall k, n :: bio(k, n) <= n
      requires pendingFlightOffset <= |pendingFlight|
      modifies this`pendingFlightOffset
      ensures old(pendingFlightOffset) <= pendingFlightOffset <= |pendingFlight|
      ensures sent == pendingFlight[old(pendingFlightOffset)..pendingFlightOffset]
      ensures ret > 0 <==> pendingFlightOffset == |pendingFlight|
    {
      sent := [];
      var k := 0;
      while pendingFlightOffset < |pendingFlight|
        invariant old(pendingFlightOffset) <= pendingFlightOffset <= |pendingFlight|
        invariant sent == pendingFlight[old(pendingFlightOffset)..pendingFlightOffset]
        decreases |pendingFlight| - pendingFlightOffset
      {
        var written := bio(k, |pendingFlight| - pendingFlightOffset);
        if written <= 0 {
          return written, sent;
        }
        sent := sent + pendingFlight[pendingFlightOffset..pendingFlightOffset + written];
        pendingFlightOffset := pendingFlightOffset + written;
        k := k + 1;
      }
      return 1, sent;
    }

    /** ssl3_flush_flight; `earlier` is what becomes of data waiting in the write buffer (positive when
      * there is none), and bio(k, n) what the transport says to the k-th attempt, for n bytes. The
      * bytes handed over are the flight's, each once and in order. */
    method Flush(isShutDown: bool, earlier: int, bio: (nat, nat) -> int, bioFlush: int) returns (ret: int, sent: seq<byte>)
      requires forall k, n :: bio(k, n) <= n
      requires pendingFlightOffset <= |pendingFlight|
      modifies this
      ensures ret == 1 ==> sent == old(pendingFlight[pendingFlightOffset..]) && pendingFlight == [] && pendingFlightOffset == 0
      ensures ret != 1 ==>
                && ret <= 0 && pendingFlight == old(pendingFlight) != []
                && old(pendingFlightOffset) <= pendingFlightOffset <= |pendingFlight|
                && sent == pendingFlight[old(pendingFlightOffset)..pendingFlightOffset]
      ensures old(pendingFlight) != [] && (isShutDown || old(|pendingFlight|) > INT_MAX || earlier <= 0) ==> ret <= 0 && sent == []
      ensures ret != 1 && pendingFlightOffset == |pendingFlight| && !isShutDown && |pendingFlight| <= INT_MAX && earlier > 0 ==> bioFlush <= 0
    {
      sent := [];
      if pendingFlight == [] {
        return 1, sent;
      }
      if isShutDown || |pendingFlight| > INT_MAX {
        return -1, sent;
      }
      if earlier <= 0 {
        return earlier, sent;
      }
      ret, sent := WriteFlight(bio);
      if ret <= 0 {
        return;
      }
      if bioFlush <= 0 {
        return -1, sent;
      }
      pendingFlight := [];
      pendingFlightOffset := 0;
      return 1, sent;
    }
  }

  lemma NoWire(version: nat, s: seq<byte>)
    ensures s + Wire(version, []) == s
  {
  }

  /** One turn of the loop. */
  lemma ChunkStep(version: nat, msg: seq<byte>, max: nat)
    requires max >= 1
    ensures var n := if |msg| <= max then |msg| else max;
            Wire(version, Chunks(msg, max)) ==
            RecordBytes(version, msg[..n]) + Wire(version, if msg[n..] == [] then [] else Chunks(msg[n..], max))
  {
    hide RecordBytes;
    if |msg| <= max {
      assert msg[..|msg|] == msg && Chunks(msg, max)[1..] == [];
    } else {
      assert Chunks(msg, max)[1..] == Chunks(msg[max..], max);
    }
  }

  // ---------------------------------------------------------------- the reading side

  /** No complete message is waiting, and the one that has begun is not too long. */
  predicate Accepting(hsBuf: seq<byte>, maxLen: nat)
  {
    ParseMessage(hsBuf).Fail? && (|hsBuf| >= 4 ==> BigEndian(hsBuf[1..4]) <= maxLen)
  }

  class StreamReader {
    var hsBuf: seq<byte>
    var hasMessage: bool

    constructor ()
      ensures hsBuf == [] && !hasMessage
    {
      hsBuf, hasMessage := [], false;
    }

    /** ssl3_get_message */
    method GetMessage() returns (m: Option<Msg>)
      modifies this`hasMessage
      ensures m == if ParseMessage(hsBuf).Got? then Some(ParseMessage(hsBuf).value) else None
      ensures hasMessage == (old(hasMessage) || m.Some?)
    {
      var p := ParseMessage(hsBuf);
      if p.Fail? {
        return None;
      }
      hasMessage := true;
      return Some(p.value);
    }

    /** tls_can_accept_handshake_data */
    method CanAccept(maxLen: nat) returns (ok: bool)
      ensures ok == Accepting(hsBuf, maxLen)
    {
      if ParseMessage(hsBuf).Got? {
        return false;
      }
      return |hsBuf| < 4 || BigEndian(hsBuf[1..4]) <= maxLen;
    }

    /** The end of ssl3_open_handshake. */
    method Append(body: seq<byte>)
      modifies this`hsBuf
      ensures hsBuf == old(hsBuf) + body
    {
      hsBuf := hsBuf + body;
    }

    /** ssl3_next_message: what follows the message moves to the front. */
    method NextMessage()
      requires ParseMessage(hsBuf).Got?
      modifies this
      ensures hsBuf == ParseMessage(old(hsBuf)).rest && !hasMessage
    {
      hide GetUint;
      MessageLength(hsBuf);
      hsBuf := hsBuf[4 + |ParseMessage(hsBuf).value.body|..];
      hasMessage := false;
    }
  }

  lemma MessageLength(s: seq<byte>)
    requires ParseMessage(s).Got?
    ensures 4 + |ParseMessage(s).value.body| <= |s| && ParseMessage(s).rest == s[4 + |ParseMessage(s).value.body|..]
  {
    hide BigEndian;
  }

  // ---------------------------------------------------------------- both ends

  /** `payloads` are the bodies of the records that have not been opened yet. */
  datatype Conn = Conn(flight: seq<byte>, offset: nat, channel: seq<byte>, hsBuf: seq<byte>,
                       queued: seq<Msg>, delivered: seq<Msg>, payloads: seq<seq<byte>>, maxLen: nat)

  datatype Action =
    | Add(m: Msg, max: nat)  // add_message under some max_send_fragment
    | Write(n: nat)          // flush_flight: the transport takes up to n bytes of the flight
    | Flushed                // the end of flush_flight
    | Open                   // open_handshake: one whole record
    | Next                   // next_message

  predicate Stuck(c: Conn)
  {
    |c.flight| > INT_MAX
  }

  function Do(version: nat, cipher: ReadCipher, c: Conn, a: Action): (c': Conn)
    requires c.offset <= |c.flight|
    ensures c'.offset <= |c'.flight|
  {
    match a
    case Add(m, max) =>
      if c.offset != 0 || !Sendable(m) || max < 1 || max > MAX_PLAIN then c
      else
        var cs := Chunks(MsgBytes(m), max);
        c.(flight := c.flight + Wire(version, cs), payloads := c.payloads + cs, queued := c.queued + [m])
    case Write(n) =>
      // ssl3_flush_flight refuses a flight whose length is no int
      var k := if Stuck(c) then 0 else if n <= |c.flight| - c.offset then n else |c.flight| - c.offset;
      c.(channel := c.channel + c.flight[c.offset..c.offset + k], offset := c.offset + k)
    case Flushed => if c.offset == |c.flight| && !Stuck(c) then c.(flight := [], offset := 0) else c
    case Open =>
      var r := ParseRecord(cipher, c.channel);
      if !Accepting(c.hsBuf, c.maxLen) || r.Fail? then c
      else c.(channel := r.rest, hsBuf := c.hsBuf + r.value, payloads := if c.payloads == [] then [] else c.payloads[1..])
    case Next =>
      var p := ParseMessage(c.hsBuf);
      if p.Fail? then c else c.(hsBuf := p.rest, delivered := c.delivered + [p.value])
  }

  function Stream(ms: seq<Msg>): seq<byte>
  {
    if ms == [] then [] else MsgBytes(ms[0]) + Stream(ms[1..])
  }

  /** Bytes on the way are whole records; buffer and record bodies continue the stream of messages
    * exactly where the delivered ones end. */
  predicate Inv(version: nat, cipher: ReadCipher, c: Conn)
  {
    && version < 0x1_0000 && cipher.VersionOk(version) && c.offset <= |c.flight|
    && c.channel + c.flight[c.offset..] == Wire(version, c.payloads)
    && (forall p :: p in c.payloads ==> |p| <= MAX_PLAIN)
    && (forall m :: m in c.queued ==> Sendable(m))
    && |c.delivered| <= |c.queued| && c.delivered == c.queued[..|c.delivered|]
    && c.hsBuf + Concat(c.payloads) == Stream(c.queued[|c.delivered|..])
  }

  lemma {:induction false} StreamSnoc(ms: seq<Msg>, m: Msg)
    ensures Stream(ms + [m]) == Stream(ms) + MsgBytes(m)
  {
    hide MsgBytes;
    if ms == [] {
      assert ([] + [m])[1..] == [] && [] + [m] == [m];
    } else {
      assert (ms + [m])[1..] == ms[1..] + [m];
      StreamSnoc(ms[1..], m);
    }
  }

  lemma AddKeeps(version: nat, cipher: ReadCipher, c: Conn, m: Msg, max: nat)
    requires Inv(version, cipher, c)
    ensures Inv(version, cipher, Do(version, cipher, c, Add(m, max)))
  {
    hide MsgBytes, Wire, Concat, Stream, Chunks, ParseMessage, ParseRecord, Accepting;
    if c.offset == 0 && Sendable(m) && 1 <= max <= MAX_PLAIN {
      var cs := Chunks(MsgBytes(m), max);
      ChunksConcat(MsgBytes(m), max);
      WireAppend(version, c.payloads, cs);
      assert c.flight[0..] == c.flight && (c.flight + Wire(version, cs))[0..] == c.flight + Wire(version, cs);
      Regroup(c.channel, c.flight, Wire(version, cs));
      AddContinues(c, cs, m);
    }
  }

  /** The queued message continues the stream by what its records hold. */
  lemma AddContinues(c: Conn, cs: seq<seq<byte>>, m: Msg)
    requires |c.delivered| <= |c.queued| && c.hsBuf + Concat(c.payloads) == Stream(c.queued[|c.delivered|..])
    requires Concat(cs) == MsgBytes(m)
    ensures c.hsBuf + Concat(c.payloads + cs) == Stream((c.queued + [m])[|c.delivered|..])
    ensures (c.queued + [m])[..|c.delivered|] == c.queued[..|c.delivered|]
  {
    hide MsgBytes, Concat, Stream;
    ConcatAppend(c.payloads, cs);
    StreamSnoc(c.queued[|c.delivered|..], m);
    assert (c.queued + [m])[|c.delivered|..] == c.queued[|c.delivered|..] + [m];
    Regroup(c.hsBuf, Concat(c.payloads), MsgBytes(m));
  }

  lemma WriteKeeps(version: nat, cipher: ReadCipher, c: Conn, n: nat)
    requires Inv(version, cipher, c)
    ensures Inv(version, cipher, Do(version, cipher, c, Write(n)))
  {
    hide Stream, Concat, Wire, Chunks, ParseRecord, ParseMessage, Accepting;
    var k := if Stuck(c) then 0 else if n <= |c.flight| - c.offset then n else |c.flight| - c.offset;
    TakeMore(c.channel, c.flight, c.offset, k);
  }

  lemma FlushedKeeps(version: nat, cipher: ReadCipher, c: Conn)
    requires Inv(version, cipher, c)
    ensures Inv(version, cipher, Do(version, cipher, c, Flushed))
  {
    hide Stream, Concat, Wire, Chunks, ParseRecord, ParseMessage, Accepting;
    assert c.offset == |c.flight| ==> c.flight[c.offset..] == [] == [][0..];
  }

  lemma TakeMore(channel: seq<byte>, flight: seq<byte>, offset: nat, k: nat)
    requires offset + k <= |flight|
    ensures channel + flight[offset..] == (channel + flight[offset..offset + k]) + flight[offset + k..]
  {
    assert flight[offset..] == flight[offset..offset + k] + flight[offset + k..];
  }

  lemma WireEmpty(version: nat, cs: seq<seq<byte>>)
    requires Wire(version, cs) == []
    ensures cs == []
  {
    hide RecordBytes;
  }

  lemma NothingToOpen(cipher: ReadCipher, channel: seq<byte>)
    ensures channel == [] ==> ParseRecord(cipher, channel).Fail?
  {
  }

  lemma OpenKeeps(version: nat, cipher: ReadCipher, c: Conn)
    requires Inv(version, cipher, c)
    ensures Inv(version, cipher, Do(version, cipher, c, Open))
  {
    hide Stream, ParseRecord, ParseMessage, RecordBytes;
    var c' := Do(version, cipher, c, Open);
    if c.payloads == [] {
      NothingToOpen(cipher, c.channel);
    } else if c' != c {
      var p, tail := c.payloads[0], Wire(version, c.payloads[1..]);
      RecordRoundTrip(cipher, version, p, tail);
      RecordPrefix(cipher, c.channel, c.flight[c.offset..]);
      assert c.hsBuf + (p + Concat(c.payloads[1..])) == (c.hsBuf + p) + Concat(c.payloads[1..]);
    }
  }

  lemma NextKeeps(version: nat, cipher: ReadCipher, c: Conn)
    requires Inv(version, cipher, c)
    ensures Inv(version, cipher, Do(version, cipher, c, Next))
  {
    hide ParseMessage, MsgBytes, Wire, Concat;
    if ParseMessage(c.hsBuf).Got? {
      var d := |c.delivered|;
      var rest := c.queued[d..];
      MessagePrefix(c.hsBuf, Concat(c.payloads));
      NonEmptyStream(c.hsBuf, c.payloads, rest);
      MessageRoundTrip(rest[0], Stream(rest[1..]));
      assert rest[1..] == c.queued[d + 1..];
      assert c.queued[..d] + [c.queued[d]] == c.queued[..d + 1];
    }
  }

  lemma NonEmptyStream(hsBuf: seq<byte>, payloads: seq<seq<byte>>, rest: seq<Msg>)
    requires ParseMessage(hsBuf).Got? && hsBuf + Concat(payloads) == Stream(rest)
    ensures rest != []
  {
    assert hsBuf != [];
  }

  lemma StepKeeps(version: nat, cipher: ReadCipher, c: Conn, a: Action)
    requires Inv(version, cipher, c)
    ensures Inv(version, cipher, Do(version, cipher, c, a))
  {
    hide Inv, Do;
    match a
    case Add(m, max) => AddKeeps(version, cipher, c, m, max);
    case Write(n) => WriteKeeps(version, cipher, c, n);
    case Flushed => FlushedKeeps(version, cipher, c);
    case Open => OpenKeeps(version, cipher, c);
    case Next => NextKeeps(version, cipher, c);
  }

  function Run(version: nat, cipher: ReadCipher, c: Conn, actions: seq<Action>): (c': Conn)
    requires c.offset <= |c.flight|
    ensures c'.offset <= |c'.flight|
    decreases |actions|
  {
    if actions == [] then c else Run(version, cipher, Do(version, cipher, c, actions[0]), actions[1..])
  }

  lemma {:induction false} RunKeeps(version: nat, cipher: ReadCipher, c: Conn, actions: seq<Action>)
    requires Inv(version, cipher, c)
    ensures Inv(version, cipher, Run(version, cipher, c, actions))
    decreases |actions|
  {
    assert c.offset <= |c.flight|;
    hide Inv, Do;
    if actions != [] {
      StepKeeps(version, cipher, c, actions[0]);
      RunKeeps(version, cipher, Do(version, cipher, c, actions[0]), actions[1..]);
    }
  }

  function Idle(maxLen: nat): Conn
  {
    Conn([], 0, [], [], [], [], [], maxLen)
  }

  lemma IdleInv(version: nat, cipher: ReadCipher, maxLen: nat)
    requires version < 0x1_0000 && cipher.VersionOk(version)
    ensures Inv(version, cipher, Idle(maxLen))
  {
  }

  /** For every fragment size, every sequence of partial writes and every pace of the reader, the
    * messages taken are a prefix of the messages added, and all of them once everything written has
    * been opened and no message is left in the buffer. */
  lemma {:induction false} RecoversMessages(version: nat, cipher: ReadCipher, maxLen: nat, actions: seq<Action>)
    requires version < 0x1_0000 && cipher.VersionOk(version)
    ensures var c := Run(version, cipher, Idle(maxLen), actions);
            && c.delivered <= c.queued
            && (c.offset == |c.flight| && c.channel == [] && ParseMessage(c.hsBuf).Fail? ==> c.delivered == c.queued)
  {
    hide ParseMessage, RecordBytes, MsgBytes;
    IdleInv(version, cipher, maxLen);
    RunKeeps(version, cipher, Idle(maxLen), actions);
    var c := Run(version, cipher, Idle(maxLen), actions);
    if c.offset == |c.flight| && c.channel == [] && ParseMessage(c.hsBuf).Fail? {
      WireEmpty(version, c.payloads);
      var rest := c.queued[|c.delivered|..];
      assert c.hsBuf == Stream(rest);
      if rest != [] {
        MessageRoundTrip(rest[0], Stream(rest[1..]));
      }
    }
  }
}
