/**
 * How far the reader of StreamFraming's connection gets (ssl3_open_handshake and
 * tls_can_accept_handshake_data in s3_both.cc): from any state a fixed number of messages can still
 * be taken, whatever the order of the steps; they are those before the first that is longer than
 * allowed, as far as the flight can be flushed.
 */
module StreamProgress {
  import opened Bytes
  import opened Cbs
  import opened Fragments
  import opened StreamFraming

  // ---------------------------------------------------------------- counting messages

  /** How many of the messages come before the first that is too long. */
  function Readable(ms: seq<Msg>, maxLen: nat): (n: nat)
    ensures n <= |ms| && (n < |ms| ==> |ms[n].body| > maxLen)
    ensures forall i :: 0 <= i < n ==> |ms[i].body| <= maxLen
  {
    if ms == [] || |ms[0].body| > maxLen then 0 else 1 + Readable(ms[1..], maxLen)
  }

  /** How many of the messages are whole within the first n bytes of their stream. */
  function Within(ms: seq<Msg>, n: nat): (k: nat)
    ensures k <= |ms|
  {
    if ms == [] || 4 + |ms[0].body| > n then 0 else 1 + Within(ms[1..], n - 4 - |ms[0].body|)
  }

  lemma {:induction false} WithinAll(ms: seq<Msg>)
    ensures Within(ms, |Stream(ms)|) == |ms|
  {
    hide MsgBytes;
    if ms != [] {
      MsgSize(ms[0]);
      WithinAll(ms[1..]);
    }
  }

  /** How many messages the reader gets out of its buffer and the bodies of the records to come. */
  function Taken(hsBuf: seq<byte>, bodies: seq<seq<byte>>, maxLen: nat): nat
    decreases |bodies|, |hsBuf|
  {
    if ParseMessage(hsBuf).Got? then 1 + Taken(ParseMessage(hsBuf).rest, bodies, maxLen)
    else if bodies == [] || !Accepting(hsBuf, maxLen) then 0
    else Taken(hsBuf + bodies[0], bodies[1..], maxLen)
  }

  /** The bodies of the records that are whole. */
  function Bodies(cipher: ReadCipher, channel: seq<byte>): seq<seq<byte>>
    decreases |channel|
  {
    if ParseRecord(cipher, channel).Fail? then []
    else
      RecordLength(cipher, channel);
      [ParseRecord(cipher, channel).value] + Bodies(cipher, ParseRecord(cipher, channel).rest)
  }

  /** The records the reader can come to: all, or those in front of a flight that is stuck. */
  function Opens(cipher: ReadCipher, c: Conn): seq<seq<byte>>
  {
    if Stuck(c) then Bodies(cipher, c.channel) else c.payloads
  }

  /** How many messages will have been taken when the reader has taken all it can. */
  function Reach(cipher: ReadCipher, c: Conn): nat
  {
    |c.delivered| + Taken(c.hsBuf, Opens(cipher, c), c.maxLen)
  }

  // ---------------------------------------------------------------- no step changes the reach

  /** What a record opened holds. */
  lemma Opened(version: nat, cipher: ReadCipher, c: Conn)
    requires Inv(version, cipher, c) && ParseRecord(cipher, c.channel).Got?
    ensures c.payloads != [] && ParseRecord(cipher, c.channel).value == c.payloads[0]
  {
    hide Stream, ParseRecord, RecordBytes, Concat;
    if c.payloads == [] {
      NothingToOpen(cipher, c.channel);
    } else {
      RecordRoundTrip(cipher, version, c.payloads[0], Wire(version, c.payloads[1..]));
      RecordPrefix(cipher, c.channel, c.flight[c.offset..]);
    }
  }

  /** Only a new message, added to a flight that is not stuck, changes the reach. */
  lemma StepReach(version: nat, cipher: ReadCipher, c: Conn, a: Action)
    requires Inv(version, cipher, c) && (a.Add? ==> Stuck(c))
    ensures var c' := Do(version, cipher, c, a);
            && Reach(cipher, c') == Reach(cipher, c) && Stuck(c') == Stuck(c)
            && (!a.Add? ==> c'.queued == c.queued)
  {
    hide Wire, ParseMessage, ParseRecord, MsgBytes, Stream, Concat, Chunks;
    assert c.channel + c.flight[c.offset..c.offset] == c.channel;
    if a.Open? && Do(version, cipher, c, Open) != c {
      Opened(version, cipher, c);
      OneMore(ParseRecord(cipher, c.channel).value, Bodies(cipher, ParseRecord(cipher, c.channel).rest));
    }
  }

  lemma OneMore(body: seq<byte>, bodies: seq<seq<byte>>)
    ensures ([body] + bodies)[0] == body && ([body] + bodies)[1..] == bodies
  {
  }

  /** However the run goes on, no more messages are taken than the reach says, unless messages are
    * added to a flight that is not stuck. */
  lemma {:induction false} NeverMore(version: nat, cipher: ReadCipher, c: Conn, actions: seq<Action>)
    requires Inv(version, cipher, c) && (Stuck(c) || forall a :: a in actions ==> !a.Add?)
    ensures Reach(cipher, Run(version, cipher, c, actions)) == Reach(cipher, c)
    ensures |Run(version, cipher, c, actions).delivered| <= Reach(cipher, c)
    decreases |actions|
  {
    assert c.offset <= |c.flight|;
    hide Inv, Do, Stuck;
    if actions != [] {
      assert actions[0] in actions && forall a :: a in actions[1..] ==> a in actions;
      StepKeeps(version, cipher, c, actions[0]);
      StepReach(version, cipher, c, actions[0]);
      NeverMore(version, cipher, Do(version, cipher, c, actions[0]), actions[1..]);
    }
  }

  // ---------------------------------------------------------------- and the reach can be reached

  /** What is still to be moved on, the further back the heavier. */
  function Weight(c: Conn): nat
    requires c.offset <= |c.flight|
  {
    3 * (|c.flight| - c.offset) + 2 * |c.channel| + |c.hsBuf|
  }

  /** The step that brings the reader closer to its reach. */
  function Forward(cipher: ReadCipher, c: Conn): Action
    requires c.offset <= |c.flight|
  {
    if ParseMessage(c.hsBuf).Got? then Next
    else if ParseRecord(cipher, c.channel).Got? then Open
    else Write(|c.flight| - c.offset)
  }

  lemma ForwardAdvances(version: nat, cipher: ReadCipher, c: Conn)
    requires Inv(version, cipher, c) && |c.delivered| < Reach(cipher, c)
    ensures var c' := Do(version, cipher, c, Forward(cipher, c)); Weight(c') < Weight(c)
  {
    hide ParseMessage, ParseRecord, MsgBytes, Stream, Concat, RecordBytes, Accepting;
    if ParseMessage(c.hsBuf).Got? {
    } else if ParseRecord(cipher, c.channel).Got? {
      RecordLength(cipher, c.channel);
      Opened(version, cipher, c);
    } else if c.offset == |c.flight| && c.payloads != [] {
      // everything is in the channel, so there is a record to be opened
      assert c.channel + c.flight[c.offset..] == c.channel;
      RecordRoundTrip(cipher, version, c.payloads[0], Wire(version, c.payloads[1..]));
    }
  }

  /** From any state, the reach can be reached without adding anything. */
  lemma {:induction false} Drain(version: nat, cipher: ReadCipher, c: Conn) returns (more: seq<Action>)
    requires Inv(version, cipher, c)
    ensures var c' := Run(version, cipher, c, more);
            c'.queued == c.queued && |c'.delivered| == Reach(cipher, c)
    ensures forall a :: a in more ==> !a.Add?
    decreases Weight(c)
  {
    assert c.offset <= |c.flight|;
    if |c.delivered| == Reach(cipher, c) {
      return [];
    }
    ForwardAdvances(version, cipher, c);
    StepKeeps(version, cipher, c, Forward(cipher, c));
    StepReach(version, cipher, c, Forward(cipher, c));
    assert !Forward(cipher, c).Add?;
    hide Inv, Do, Forward, Reach;
    var rest := Drain(version, cipher, Do(version, cipher, c, Forward(cipher, c)));
    more := [Forward(cipher, c)] + rest;
    assert more[1..] == rest;
  }

  // ---------------------------------------------------------------- what is taken, by the messages

  lemma MsgSize(m: Msg)
    ensures |MsgBytes(m)| == 4 + |m.body|
  {
  }

  /** What the header at the front of the buffer announces. */
  lemma HeaderAnnounces(hsBuf: seq<byte>, m: Msg, tail: seq<byte>)
    requires Sendable(m) && hsBuf <= MsgBytes(m) + tail
    ensures |hsBuf| >= 4 ==> BigEndian(hsBuf[1..4]) == |m.body|
    ensures ParseMessage(hsBuf).Got? <==> |hsBuf| >= 4 + |m.body|
  {
    hide ToBigEndian, BigEndian, Pow2;
    Widths();
    BigEndianInverse(|m.body|, 3);
    var s := MsgBytes(m) + tail;
    assert s[1..4] == ToBigEndian(|m.body|, 3);
    if |hsBuf| >= 4 {
      assert hsBuf[1..4] == s[1..4];
      assert hsBuf[1..][..3] == hsBuf[1..4];
    }
  }

  /** The buffer begins the stream of messages, and `more` goes on with it. */
  ghost predicate Begins(hsBuf: seq<byte>, more: seq<byte>, ms: seq<Msg>)
  {
    hsBuf + more <= Stream(ms) && forall m :: m in ms ==> Sendable(m)
  }

  lemma NothingBegins(hsBuf: seq<byte>, more: seq<byte>)
    requires Begins(hsBuf, more, [])
    ensures hsBuf == [] && ParseMessage(hsBuf).Fail?
  {
  }

  /** What it can be told of the first message. */
  lemma FrontHeader(hsBuf: seq<byte>, more: seq<byte>, ms: seq<Msg>)
    requires Begins(hsBuf, more, ms) && ms != []
    ensures |hsBuf| >= 4 ==> BigEndian(hsBuf[1..4]) == |ms[0].body|
    ensures ParseMessage(hsBuf).Got? <==> |hsBuf| >= 4 + |ms[0].body|
  {
    hide ParseMessage, MsgBytes, Sendable, BigEndian;
    assert ms[0] in ms;
    assert (hsBuf + more)[..|hsBuf|] == hsBuf;
    HeaderAnnounces(hsBuf, ms[0], Stream(ms[1..]));
  }

  /** A message at its front is the first of the stream, and the rest begins the rest. */
  lemma FrontTaken(hsBuf: seq<byte>, more: seq<byte>, ms: seq<Msg>)
    requires Begins(hsBuf, more, ms) && ms != [] && ParseMessage(hsBuf).Got?
    ensures var r := ParseMessage(hsBuf).rest;
            ParseMessage(hsBuf).value == ms[0] && |r| + 4 + |ms[0].body| == |hsBuf| && Begins(r, more, ms[1..])
  {
    hide ParseMessage, MsgBytes, Sendable;
    assert ms[0] in ms && forall m :: m in ms[1..] ==> m in ms;
    var later := Stream(ms[1..]);
    hide Stream;
    var tail := Remainder(hsBuf, more, MsgBytes(ms[0]) + later);
    FirstTaken(hsBuf, more + tail, ms[0], later);
    PrefixOf(ParseMessage(hsBuf).rest, more, tail);
  }

  lemma Remainder(a: seq<byte>, b: seq<byte>, s: seq<byte>) returns (tail: seq<byte>)
    requires a + b <= s
    ensures a + (b + tail) == s
  {
    tail := s[|a| + |b|..];
  }

  lemma PrefixOf(a: seq<byte>, b: seq<byte>, tail: seq<byte>)
    ensures a + b <= a + (b + tail)
  {
  }

  lemma FirstTaken(hsBuf: seq<byte>, tail: seq<byte>, m: Msg, later: seq<byte>)
    requires Sendable(m) && ParseMessage(hsBuf).Got? && hsBuf + tail == MsgBytes(m) + later
    ensures ParseMessage(hsBuf).value == m && ParseMessage(hsBuf).rest + tail == later
    ensures |ParseMessage(hsBuf).rest| + 4 + |m.body| == |hsBuf|
  {
    MessagePrefix(hsBuf, tail);
    MessageRoundTrip(m, later);
    MessageLength(hsBuf);
  }

  /** The buffer holds no message that is too long, at least not all of it. */
  ghost predicate Short(ms: seq<Msg>, hsBuf: seq<byte>, maxLen: nat)
  {
    forall i :: 0 <= i < |ms| && |ms[i].body| > maxLen ==> |hsBuf| < |Stream(ms[..i])| + 4 + |ms[i].body|
  }

  lemma {:induction false} StreamPrefix(ms: seq<Msg>, i: nat)
    requires i <= |ms|
    ensures |Stream(ms[..i])| <= |Stream(ms)|
    ensures 0 < i ==> Stream(ms[..i]) == MsgBytes(ms[0]) + Stream(ms[1..][..i - 1])
  {
    hide MsgBytes;
    if i > 0 {
      assert ms[..i][0] == ms[0] && ms[..i][1..] == ms[1..][..i - 1];
      StreamPrefix(ms[1..], i - 1);
    }
  }

  /** Taking a message keeps that, and it was not too long. */
  lemma ShortNext(ms: seq<Msg>, hsBuf: seq<byte>, r: seq<byte>, maxLen: nat)
    requires ms != [] && Short(ms, hsBuf, maxLen) && |r| + 4 + |ms[0].body| == |hsBuf|
    ensures Short(ms[1..], r, maxLen) && |ms[0].body| <= maxLen
  {
    hide MsgBytes;
    assert ms[..0] == [];
    forall i | 0 <= i < |ms[1..]| && |ms[1..][i].body| > maxLen ensures |r| < |Stream(ms[1..][..i])| + 4 + |ms[1..][i].body| {
      StreamPrefix(ms, i + 1);
      MsgSize(ms[0]);
    }
  }

  /** So does opening a record, if the limit is not below the size of one. */
  lemma ShortOpen(ms: seq<Msg>, hsBuf: seq<byte>, body: seq<byte>, more: seq<byte>, maxLen: nat)
    requires Short(ms, hsBuf, maxLen) && Begins(hsBuf, more, ms)
    requires Accepting(hsBuf, maxLen) && |body| <= MAX_PLAIN <= maxLen
    ensures Short(ms, hsBuf + body, maxLen)
  {
    hide MsgBytes, ParseMessage;
    if ms != [] {
      FrontHeader(hsBuf, more, ms);
      forall i | 0 <= i < |ms| && |ms[i].body| > maxLen ensures |hsBuf + body| < |Stream(ms[..i])| + 4 + |ms[i].body| {
        StreamPrefix(ms, i);
        MsgSize(ms[0]);
      }
    }
  }

  lemma ConcatFirst(hsBuf: seq<byte>, bodies: seq<seq<byte>>)
    ensures bodies == [] ==> hsBuf + Concat(bodies) == hsBuf && Concat(bodies) == []
    ensures bodies != [] ==> hsBuf + Concat(bodies) == (hsBuf + bodies[0]) + Concat(bodies[1..])
    ensures bodies != [] ==> |Concat(bodies)| == |bodies[0]| + |Concat(bodies[1..])|
  {
  }

  function Min(a: nat, b: nat): nat
  {
    if a < b then a else b
  }

  /** One message more, or none, in both counts. */
  lemma CountsHead(ms: seq<Msg>, n: nat, maxLen: nat)
    ensures ms == [] || n < 4 + |ms[0].body| ==> Within(ms, n) == 0
    ensures ms != [] && |ms[0].body| > maxLen ==> Readable(ms, maxLen) == 0
    ensures ms != [] && n >= 4 + |ms[0].body| ==>
              && Within(ms, n) == 1 + Within(ms[1..], n - 4 - |ms[0].body|)
              && Readable(ms, maxLen) == if |ms[0].body| > maxLen then 0 else 1 + Readable(ms[1..], maxLen)
  {
  }

  /** What is taken is the readable messages as far as they are there, and others at most if the
    * limit is below the size of a record. */
  ghost predicate Counts(n: nat, hsBuf: seq<byte>, bodies: seq<seq<byte>>, ms: seq<Msg>, maxLen: nat)
  {
    var w := Within(ms, |hsBuf| + |Concat(bodies)|);
    && Min(Readable(ms, maxLen), w) <= n <= w
    && (maxLen >= MAX_PLAIN && Short(ms, hsBuf, maxLen) ==> n == Min(Readable(ms, maxLen), w))
  }

  lemma {:induction false} TakenIs(hsBuf: seq<byte>, bodies: seq<seq<byte>>, ms: seq<Msg>, maxLen: nat)
    requires Begins(hsBuf, Concat(bodies), ms) && forall b :: b in bodies ==> |b| <= MAX_PLAIN
    ensures Counts(Taken(hsBuf, bodies, maxLen), hsBuf, bodies, ms, maxLen)
    decreases |bodies|, |hsBuf|
  {
    hide ParseMessage, Begins, Counts, Concat, Accepting;
    ConcatFirst(hsBuf, bodies);
    if ParseMessage(hsBuf).Got? {
      if ms == [] { NothingBegins(hsBuf, Concat(bodies)); }
      FrontTaken(hsBuf, Concat(bodies), ms);
      var r := ParseMessage(hsBuf).rest;
      TakenIs(r, bodies, ms[1..], maxLen);
      NextCounts(Taken(r, bodies, maxLen), hsBuf, r, bodies, ms, maxLen);
    } else if bodies != [] && Accepting(hsBuf, maxLen) {
      StillBegins(hsBuf, bodies, ms);
      TakenIs(hsBuf + bodies[0], bodies[1..], ms, maxLen);
      OpenCounts(Taken(hsBuf + bodies[0], bodies[1..], maxLen), hsBuf, bodies, ms, maxLen);
    } else {
      EndCounts(hsBuf, bodies, ms, maxLen);
    }
  }

  lemma StillBegins(hsBuf: seq<byte>, bodies: seq<seq<byte>>, ms: seq<Msg>)
    requires bodies != [] && Begins(hsBuf, Concat(bodies), ms)
    ensures Begins(hsBuf + bodies[0], Concat(bodies[1..]), ms)
  {
    ConcatFirst(hsBuf, bodies);
  }

  lemma NextCounts(n: nat, hsBuf: seq<byte>, r: seq<byte>, bodies: seq<seq<byte>>, ms: seq<Msg>, maxLen: nat)
    requires ms != [] && |r| + 4 + |ms[0].body| == |hsBuf| && Counts(n, r, bodies, ms[1..], maxLen)
    ensures Counts(n + 1, hsBuf, bodies, ms, maxLen)
  {
    hide Within, Readable, Short, Concat;
    CountsHead(ms, |hsBuf| + |Concat(bodies)|, maxLen);
    if Short(ms, hsBuf, maxLen) { ShortNext(ms, hsBuf, r, maxLen); }
  }

  lemma OpenCounts(n: nat, hsBuf: seq<byte>, bodies: seq<seq<byte>>, ms: seq<Msg>, maxLen: nat)
    requires bodies != [] && |bodies[0]| <= MAX_PLAIN && Begins(hsBuf, Concat(bodies), ms) && Accepting(hsBuf, maxLen)
    requires Counts(n, hsBuf + bodies[0], bodies[1..], ms, maxLen)
    ensures Counts(n, hsBuf, bodies, ms, maxLen)
  {
    hide Within, Readable, Short, Concat, Begins, Accepting;
    ConcatFirst(hsBuf, bodies);
    if maxLen >= MAX_PLAIN && Short(ms, hsBuf, maxLen) { ShortOpen(ms, hsBuf, bodies[0], Concat(bodies), maxLen); }
  }

  lemma EndCounts(hsBuf: seq<byte>, bodies: seq<seq<byte>>, ms: seq<Msg>, maxLen: nat)
    requires Begins(hsBuf, Concat(bodies), ms) && ParseMessage(hsBuf).Fail? && (bodies == [] || !Accepting(hsBuf, maxLen))
    ensures Counts(0, hsBuf, bodies, ms, maxLen)
  {
    hide Within, Readable, Short, Concat, Begins, ParseMessage;
    CountsHead(ms, |hsBuf| + |Concat(bodies)|, maxLen);
    ConcatFirst(hsBuf, bodies);
    if ms == [] {
      NothingBegins(hsBuf, Concat(bodies));
    } else {
      FrontHeader(hsBuf, Concat(bodies), ms);
    }
  }

  // ---------------------------------------------------------------- over runs

  /** The reader has not passed the first message that is too long. */
  ghost predicate Behaves(c: Conn)
  {
    && |c.delivered| <= |c.queued| && Short(c.queued[|c.delivered|..], c.hsBuf, c.maxLen)
    && |c.delivered| <= Readable(c.queued, c.maxLen)
  }

  lemma {:induction false} ReadableMore(ms: seq<Msg>, m: Msg, maxLen: nat)
    ensures Readable(ms + [m], maxLen) >= Readable(ms, maxLen)
  {
    if ms != [] {
      assert (ms + [m])[1..] == ms[1..] + [m];
      ReadableMore(ms[1..], m, maxLen);
    }
  }

  /** What is readable of the rest, once everything before it is. */
  lemma {:induction false} ReadableRest(ms: seq<Msg>, d: nat, maxLen: nat)
    requires d <= Readable(ms, maxLen)
    ensures Readable(ms, maxLen) == d + Readable(ms[d..], maxLen)
  {
    if d == 0 {
      assert ms[0..] == ms;
    } else {
      ReadableRest(ms[1..], d - 1, maxLen);
      assert ms[1..][d - 1..] == ms[d..];
    }
  }

  lemma StepBehaves(version: nat, cipher: ReadCipher, c: Conn, a: Action)
    requires Inv(version, cipher, c) && Behaves(c) && c.maxLen >= MAX_PLAIN
    ensures Behaves(Do(version, cipher, c, a)) && Do(version, cipher, c, a).maxLen == c.maxLen
  {
    hide Wire, ParseMessage, ParseRecord, MsgBytes, Stream, Concat, Chunks, Accepting, Short;
    match a {
      case Add(m, max) =>
        ReadableMore(c.queued, m, c.maxLen);
        AddShort(c, m);
      case Open => if Do(version, cipher, c, Open) != c { OpenShort(version, cipher, c); }
      case Next => if ParseMessage(c.hsBuf).Got? { NextShort(version, cipher, c); }
      case _ =>
    }
  }

  lemma AddShort(c: Conn, m: Msg)
    requires |c.delivered| <= |c.queued| && Short(c.queued[|c.delivered|..], c.hsBuf, c.maxLen)
    requires c.hsBuf + Concat(c.payloads) == Stream(c.queued[|c.delivered|..])
    ensures Short((c.queued + [m])[|c.delivered|..], c.hsBuf, c.maxLen)
  {
    hide MsgBytes, Concat;
    var rest := c.queued[|c.delivered|..];
    var more := (c.queued + [m])[|c.delivered|..];
    assert more == rest + [m] && |c.hsBuf| <= |Stream(rest)|;
    forall i | 0 <= i < |more| && |more[i].body| > c.maxLen ensures |c.hsBuf| < |Stream(more[..i])| + 4 + |more[i].body| {
      assert more[..i] == if i < |rest| then rest[..i] else rest;
    }
  }

  lemma OpenShort(version: nat, cipher: ReadCipher, c: Conn)
    requires Inv(version, cipher, c) && Behaves(c) && c.maxLen >= MAX_PLAIN && Do(version, cipher, c, Open) != c
    ensures Short(c.queued[|c.delivered|..], Do(version, cipher, c, Open).hsBuf, c.maxLen)
  {
    hide Wire, ParseMessage, ParseRecord, MsgBytes, Stream, Concat, Accepting, Short;
    Opened(version, cipher, c);
    ShortOpen(c.queued[|c.delivered|..], c.hsBuf, c.payloads[0], Concat(c.payloads), c.maxLen);
  }

  lemma NextShort(version: nat, cipher: ReadCipher, c: Conn)
    requires Inv(version, cipher, c) && Behaves(c) && ParseMessage(c.hsBuf).Got?
    ensures Behaves(Do(version, cipher, c, Next))
  {
    hide Wire, ParseMessage, ParseRecord, MsgBytes, Stream, Concat, Short;
    var rest := c.queued[|c.delivered|..];
    if rest == [] { NothingBegins(c.hsBuf, Concat(c.payloads)); }
    FrontTaken(c.hsBuf, Concat(c.payloads), rest);
    ShortNext(rest, c.hsBuf, ParseMessage(c.hsBuf).rest, c.maxLen);
    assert rest[1..] == c.queued[|c.delivered| + 1..];
    ReadableRest(c.queued, |c.delivered|, c.maxLen);
  }

  lemma {:induction false} RunBehaves(version: nat, cipher: ReadCipher, c: Conn, actions: seq<Action>)
    requires Inv(version, cipher, c) && Behaves(c) && c.maxLen >= MAX_PLAIN
    ensures var c' := Run(version, cipher, c, actions);
            Inv(version, cipher, c') && Behaves(c') && c'.maxLen == c.maxLen
    decreases |actions|
  {
    assert c.offset <= |c.flight|;
    hide Inv, Behaves, Do;
    if actions != [] {
      StepKeeps(version, cipher, c, actions[0]);
      StepBehaves(version, cipher, c, actions[0]);
      RunBehaves(version, cipher, Do(version, cipher, c, actions[0]), actions[1..]);
    }
  }

  /** How many of the messages not yet taken are wholly in front of the flight. */
  function InFront(cipher: ReadCipher, c: Conn): nat
    requires |c.delivered| <= |c.queued|
  {
    Within(c.queued[|c.delivered|..], |c.hsBuf| + |Concat(Bodies(cipher, c.channel))|)
  }

  /** The whole records in the channel are the first of those under way. */
  lemma {:induction false} BodiesPrefix(version: nat, cipher: ReadCipher, channel: seq<byte>, rest: seq<byte>, payloads: seq<seq<byte>>)
    requires version < 0x1_0000 && cipher.VersionOk(version) && channel + rest == Wire(version, payloads)
    requires forall p :: p in payloads ==> |p| <= MAX_PLAIN
    ensures Bodies(cipher, channel) <= payloads
    decreases |payloads|
  {
    hide ParseRecord, RecordBytes;
    if ParseRecord(cipher, channel).Got? {
      RecordPrefix(cipher, channel, rest);
      if payloads == [] {
        NothingToOpen(cipher, channel);
      } else {
        RecordRoundTrip(cipher, version, payloads[0], Wire(version, payloads[1..]));
        RecordLength(cipher, channel);
        BodiesPrefix(version, cipher, ParseRecord(cipher, channel).rest, rest, payloads[1..]);
      }
    }
  }

  lemma ConcatPrefix(a: seq<seq<byte>>, b: seq<seq<byte>>)
    requires a <= b
    ensures Concat(a) <= Concat(b)
  {
    assert b == a + b[|a|..];
    ConcatAppend(a, b[|a|..]);
  }

  /** The reach of a state, by the messages queued: those that may be read and, if the flight is
    * stuck, are in front of it. */
  lemma ReachIs(version: nat, cipher: ReadCipher, c: Conn)
    requires Inv(version, cipher, c)
    ensures var rest := c.queued[|c.delivered|..];
            var there := if Stuck(c) then InFront(cipher, c) else |rest|;
            && |c.delivered| + Min(Readable(rest, c.maxLen), there) <= Reach(cipher, c) <= |c.delivered| + there
            && (Behaves(c) && c.maxLen >= MAX_PLAIN ==> Reach(cipher, c) == |c.delivered| + Min(Readable(rest, c.maxLen), there))
  {
    hide ParseRecord, ParseMessage, MsgBytes, Stream, Taken, Short, Wire, Within, Readable, Concat;
    var rest := c.queued[|c.delivered|..];
    if Stuck(c) {
      BodiesPrefix(version, cipher, c.channel, c.flight[c.offset..], c.payloads);
      var bodies := Bodies(cipher, c.channel);
      ConcatPrefix(bodies, c.payloads);
      assert c.hsBuf + Concat(bodies) <= c.hsBuf + Concat(c.payloads);
      forall b | b in bodies ensures |b| <= MAX_PLAIN { assert b in c.payloads; }
      TakenIs(c.hsBuf, bodies, rest, c.maxLen);
    } else {
      WithinAll(rest);
      TakenIs(c.hsBuf, c.payloads, rest, c.maxLen);
    }
  }

  /** For every run and every limit: what can still be taken, can be, by a continuation that adds
    * nothing, and no continuation takes more, unless it adds to a flight that is not stuck. With a
    * limit of at least a record's size, the messages before the first that is too long have not been
    * passed, and can all be taken exactly if the flight is not stuck or all of them are in front of
    * it. */
  lemma {:induction false} ReadsAllReadable(version: nat, cipher: ReadCipher, maxLen: nat, actions: seq<Action>)
    returns (more: seq<Action>)
    requires version < 0x1_0000 && cipher.VersionOk(version)
    ensures var c := Run(version, cipher, Idle(maxLen), actions);
            var c' := Run(version, cipher, c, more);
            && c'.queued == c.queued && c'.delivered <= c.queued && |c'.delivered| == Reach(cipher, c)
            && (forall other: seq<Action> :: Stuck(c) || (forall a: Action :: a in other ==> !a.Add?) ==> |Run(version, cipher, c, other).delivered| <= Reach(cipher, c))
            && (maxLen >= MAX_PLAIN ==>
                  && |c.delivered| <= Reach(cipher, c) <= Readable(c.queued, maxLen)
                  && (Reach(cipher, c) == Readable(c.queued, maxLen) <==>
                        !Stuck(c) || Readable(c.queued, maxLen) <= |c.delivered| + InFront(cipher, c)))
  {
    IdleInv(version, cipher, maxLen);
    IdleBehaves(maxLen);
    hide Inv, Behaves, Reach, Stuck, Readable, InFront, Run;
    RunKeeps(version, cipher, Idle(maxLen), actions);
    RunLimit(version, cipher, Idle(maxLen), actions);
    var c := Run(version, cipher, Idle(maxLen), actions);
    more := Drain(version, cipher, c);
    RunKeeps(version, cipher, c, more);
    DeliveredFirst(version, cipher, Run(version, cipher, c, more));
    forall other: seq<Action> | Stuck(c) || (forall a: Action :: a in other ==> !a.Add?)
      ensures |Run(version, cipher, c, other).delivered| <= Reach(cipher, c)
    {
      NeverMore(version, cipher, c, other);
    }
    DeliveredFirst(version, cipher, c);
    if maxLen >= MAX_PLAIN {
      RunBehaves(version, cipher, Idle(maxLen), actions);
      DrainedIff(version, cipher, c);
    }
  }

  /** Where everything readable can be taken. */
  lemma DrainedIff(version: nat, cipher: ReadCipher, c: Conn)
    requires Inv(version, cipher, c) && Behaves(c) && c.maxLen >= MAX_PLAIN
    ensures |c.delivered| <= Reach(cipher, c) <= Readable(c.queued, c.maxLen)
    ensures Reach(cipher, c) == Readable(c.queued, c.maxLen) <==>
            !Stuck(c) || Readable(c.queued, c.maxLen) <= |c.delivered| + InFront(cipher, c)
  {
    ReachIs(version, cipher, c);
    hide Inv, Reach, Stuck, Readable, InFront, Short;
    ReadableRest(c.queued, |c.delivered|, c.maxLen);
  }

  lemma DeliveredFirst(version: nat, cipher: ReadCipher, c: Conn)
    requires Inv(version, cipher, c)
    ensures c.delivered <= c.queued
  {
  }

  lemma IdleBehaves(maxLen: nat)
    ensures Behaves(Idle(maxLen))
  {
  }

  lemma {:induction false} RunLimit(version: nat, cipher: ReadCipher, c: Conn, actions: seq<Action>)
    requires c.offset <= |c.flight|
    ensures Run(version, cipher, c, actions).maxLen == c.maxLen
    decreases |actions|
  {
    hide ParseMessage, ParseRecord, Wire, Chunks, Accepting;
    if actions != [] {
      RunLimit(version, cipher, Do(version, cipher, c, actions[0]), actions[1..]);
    }
  }

  // ---------------------------------------------------------------- where less, or more, is taken

  function Empties(n: nat): seq<Action>
  {
    seq(n, i => Add(Msg(0, []), MAX_PLAIN))
  }

  /** Empty messages queued without a flush in between can be taken exactly if their records together
    * are no longer than INT_MAX; 238609295 of them are too many. */
  lemma {:induction false} FlightStuck(version: nat, cipher: ReadCipher, maxLen: nat, n: nat)
    requires version < 0x1_0000 && cipher.VersionOk(version)
    ensures var c := Run(version, cipher, Idle(maxLen), Empties(n));
            && |c.queued| == Readable(c.queued, maxLen) == n
            && Reach(cipher, c) == if 9 * n <= 0x7FFF_FFFF then n else 0
  {
    IdleInv(version, cipher, maxLen);
    RunKeeps(version, cipher, Idle(maxLen), Empties(n));
    RunLimit(version, cipher, Idle(maxLen), Empties(n));
    ManyAdded(version, cipher, Idle(maxLen), n);
    hide Inv, Run, Reach;
    var c := Run(version, cipher, Idle(maxLen), Empties(n));
    assert c.queued[0..] == c.queued;
    AllReadable(c.queued, maxLen);
    ReachIs(version, cipher, c);
    assert Bodies(cipher, []) == [] by { NothingToOpen(cipher, []); }
  }

  lemma {:induction false} ManyAdded(version: nat, cipher: ReadCipher, c: Conn, n: nat)
    requires c.offset == 0 && c.hsBuf == [] && c.channel == [] && c.delivered == []
    requires forall m :: m in c.queued ==> m.body == []
    ensures var c' := Run(version, cipher, c, Empties(n));
            && |c'.flight| == |c.flight| + 9 * n && |c'.queued| == |c.queued| + n
            && (forall m :: m in c'.queued ==> m.body == [])
            && c'.offset == 0 && c'.hsBuf == [] && c'.channel == [] && c'.delivered == []
    decreases n
  {
    if n > 0 {
      OneAdded(version, cipher, c);
      hide Do;
      assert Empties(n)[0] == Add(Msg(0, []), MAX_PLAIN) && Empties(n)[1..] == Empties(n - 1);
      ManyAdded(version, cipher, Do(version, cipher, c, Add(Msg(0, []), MAX_PLAIN)), n - 1);
    }
  }

  lemma OneAdded(version: nat, cipher: ReadCipher, c: Conn)
    requires c.offset == 0
    ensures var c' := Do(version, cipher, c, Add(Msg(0, []), MAX_PLAIN));
            && |c'.flight| == |c.flight| + 9 && c'.queued == c.queued + [Msg(0, [])]
            && c'.offset == 0 && c'.hsBuf == c.hsBuf && c'.channel == c.channel && c'.delivered == c.delivered
  {
    hide RecordBytes, MsgBytes, ParseMessage, ParseRecord;
    MsgSize(Msg(0, []));
    var b := MsgBytes(Msg(0, []));
    assert Chunks(b, MAX_PLAIN) == [b];
    assert Wire(version, [b]) == RecordBytes(version, b) + [];
  }

  lemma {:induction false} AllReadable(ms: seq<Msg>, maxLen: nat)
    requires forall m :: m in ms ==> m.body == []
    ensures Readable(ms, maxLen) == |ms|
  {
    if ms != [] {
      assert ms[0] in ms && forall m :: m in ms[1..] ==> m in ms;
      AllReadable(ms[1..], maxLen);
    }
  }

  /** Below a record's size the limit can be passed: a message that is too long and comes whole in one
    * record is taken. */
  lemma LimitPassed(version: nat, cipher: ReadCipher, maxLen: nat)
    requires maxLen + 5 <= MAX_PLAIN
    ensures var m := Msg(0, seq(maxLen + 1, i => 0));
            var c := Run(version, cipher, Idle(maxLen), [Add(m, MAX_PLAIN)]);
            Readable(c.queued, maxLen) == 0 && Reach(cipher, c) == 1
  {
    hide MsgBytes, ParseRecord, ParseMessage, RecordBytes;
    var m := Msg(0, seq(maxLen + 1, i => 0));
    var a, b := Add(m, MAX_PLAIN), MsgBytes(m);
    MsgSize(m);
    assert Chunks(b, MAX_PLAIN) == [b];
    var c := Do(version, cipher, Idle(maxLen), a);
    assert [a][1..] == [] && Run(version, cipher, c, []) == c;
    assert c.payloads == [b] && c.queued == [m];
    var none: seq<byte>, no: seq<seq<byte>> := [], [];
    assert |Wire(version, [b])| == |RecordBytes(version, b)| by { assert RecordBytes(version, b) + [] == RecordBytes(version, b); }
    NothingBegins(none, none);
    assert none + b == b == b + none && [b][1..] == no;
    MessageRoundTrip(m, none);
    assert Taken(none, [], maxLen) == 0;
    assert Taken(b, [], maxLen) == 1;
  }
}
