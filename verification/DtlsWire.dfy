/**
 * DTLS records as bytes: what dtls_seal_record puts in front of a record, and that dtls_open_record
 * finds it there (dtls_record.cc, ssl_record_sequence_update in tls_record.cc).
 */
module DtlsWire {
  import opened Bytes
  import opened Cbs
  import opened DtlsRecord
  import opened Headers
  import ReplayWindow

  // ---------------------------------------------------------------- numbers on the wire

  lemma {:induction false} ToBigEndianInverse(s: seq<byte>)
    ensures ToBigEndian(BigEndian(s), |s|) == s
  {
    if s != [] {
      var n := |s| - 1;
      ToBigEndianInverse(s[..n]);
      assert BigEndian(s) == 256 * BigEndian(s[..n]) + s[n];
      assert s == s[..n] + [s[n]];
    }
  }

  /** ssl_record_sequence_update: the counter goes up by one, and wraps with an error. */
  method SequenceUpdate(seq_: array<byte>) returns (ok: bool)
    modifies seq_
    ensures ok <==> old(BigEndian(seq_[..])) + 1 < Pow2(8 * seq_.Length)
    ensures BigEndian(seq_[..]) == if ok then old(BigEndian(seq_[..])) + 1 else 0
  {
    ghost var before := seq_[..];
    var i := seq_.Length;
    while i > 0
      invariant 0 <= i <= seq_.Length
      invariant seq_[..i] == before[..i]
      invariant forall k :: i <= k < seq_.Length ==> seq_[k] == 0 && before[k] == 255
    {
      i := i - 1;
      seq_[i] := (seq_[i] as int + 1) % 256;
      if seq_[i] != 0 {
        CarryInto(before, seq_[..], i);
        return true;
      }
    }
    AllOnes(before, seq_[..]);
    return false;
  }

  lemma CarryInto(s: seq<byte>, t: seq<byte>, i: nat)
    requires i < |s| == |t| && s[..i] == t[..i] && t[i] as int == s[i] as int + 1
    requires forall k :: i < k < |s| ==> s[k] == 255 && t[k] == 0
    ensures BigEndian(t) == BigEndian(s) + 1 < Pow2(8 * |s|)
  {
    BigEndianBound(t);
    CarryOver(s, t, i);
  }

  lemma {:induction false} CarryOver(s: seq<byte>, t: seq<byte>, i: nat)
    requires i < |s| == |t| && s[..i] == t[..i] && t[i] as int == s[i] as int + 1
    requires forall k :: i < k < |s| ==> s[k] == 255 && t[k] == 0
    ensures BigEndian(t) == BigEndian(s) + 1
  {
    var n := |s| - 1;
    if i < n {
      assert s[..n][..i] == s[..i] && t[..n][..i] == t[..i];
      CarryOver(s[..n], t[..n], i);
    } else {
      assert s[..n] == s[..i] && t[..n] == t[..i];
    }
  }

  lemma {:induction false} AllOnes(s: seq<byte>, t: seq<byte>)
    requires |s| == |t| && forall k :: 0 <= k < |s| ==> s[k] == 255 && t[k] == 0
    ensures BigEndian(s) + 1 == Pow2(8 * |s|) && BigEndian(t) == 0
  {
    if s == [] {
      assert Pow2(0) == 1;
    } else {
      var n := |s| - 1;
      AllOnes(s[..n], t[..n]);
      EightMore(n);
    }
  }

  // ---------------------------------------------------------------- one record

  /** The values fit the header fields. */
  predicate FitsHeader(kind: nat, version: nat, epoch: nat, number: nat, body: seq<byte>)
  {
    kind < 0x100 && version < 0x1_0000 && epoch < 0x1_0000 && number < 0x1_0000_0000_0000 && |body| < 0x1_0000
  }

  /** What dtls_seal_record writes into the output buffer once the cipher has put `body` behind the
    * header; `sequence` is the eight-byte write sequence, of which the epoch overlays the first two. */
  method WriteRecord(out: array<byte>, kind: byte, version: nat, epoch: nat, sequence: seq<byte>, body: seq<byte>) returns (ok: bool)
    requires |sequence| == 8 && version < 0x1_0000 && epoch < 0x1_0000 && out.Length >= RT_HEADER_LENGTH + |body|
    modifies out
    ensures ok <==> |body| < 0x1_0000
    ensures ok ==> out[..RT_HEADER_LENGTH + |body|] == RecordBytes(kind, version, epoch, BigEndian(sequence[2..]), body)
    ensures out[RT_HEADER_LENGTH + |body|..] == old(out[RT_HEADER_LENGTH + |body|..])
  {
    out[0] := kind;
    out[1] := version / 256;
    out[2] := version % 256;
    out[3] := epoch / 256;
    out[4] := epoch % 256;
    forall i | 0 <= i < 6 { out[5 + i] := sequence[2 + i]; }
    forall i | 0 <= i < |body| { out[RT_HEADER_LENGTH + i] := body[i]; }
    if |body| >= 0x1_0000 {
      return false;
    }
    out[11] := |body| / 256;
    out[12] := |body| % 256;
    ToBigEndianInverse(sequence[2..]);
    Header(out[..RT_HEADER_LENGTH + |body|], kind, version, epoch, sequence[2..], body);
    return true;
  }

  lemma Header(s: seq<byte>, kind: byte, version: nat, epoch: nat, number: seq<byte>, body: seq<byte>)
    requires version < 0x1_0000 && epoch < 0x1_0000 && |number| == 6 && |body| < 0x1_0000
    requires s == [kind, version / 256, version % 256, epoch / 256, epoch % 256] + number + [|body| / 256, |body| % 256] + body
    ensures s == RecordBytes(kind, version, epoch, BigEndian(number), body)
  {
    hide BigEndian;
    ToBigEndianInverse(number);
    Two(version);
    Two(epoch);
    Two(|body|);
    One(kind);
  }

  /** dtls_open_record takes the record back out, in front of whatever else is in the packet, unless its
    * body is longer than SSL3_RT_MAX_ENCRYPTED_LENGTH. */
  lemma RecordParses(kind: nat, version: nat, epoch: nat, number: nat, body: seq<byte>, x: seq<byte>)
    requires FitsHeader(kind, version, epoch, number, body)
    ensures var p := ParseRecord(RecordBytes(kind, version, epoch, number, body) + x);
            && (p.Got? <==> |body| <= MAX_ENCRYPTED_LENGTH)
            && (p.Got? ==> p.rest == x && p.value.kind == kind && p.value.version == version && p.value.body == body
                           && Epoch(p.value) == epoch && Number(p.value) == epoch * 0x1_0000_0000_0000 + number)
  {
    hide GetUint, ToBigEndian, BigEndian;
    var e3 := ToBigEndian(|body|, 2) + body;
    var sequence := ToBigEndian(epoch, 2) + ToBigEndian(number, 6);
    var e2 := sequence + e3;
    var e1 := ToBigEndian(version, 2) + e2;
    UintRoundTrip(kind, 1, e1 + x);
    UintRoundTrip(version, 2, e2 + x);
    UintRoundTrip(|body|, 2, body + x);
    Regroup(ToBigEndian(kind, 1), e1, x);
    Regroup(ToBigEndian(version, 2), e2, x);
    Regroup(sequence, e3, x);
    Regroup(ToBigEndian(|body|, 2), body, x);
    assert (sequence + (e3 + x))[..8] == sequence && (sequence + (e3 + x))[8..] == e3 + x;
    assert (body + x)[..|body|] == body && (body + x)[|body|..] == x;
    SequenceValue(epoch, number);
  }

  lemma Regroup(a: seq<byte>, b: seq<byte>, x: seq<byte>)
    ensures (a + b) + x == a + (b + x)
  {
  }

  /** The eight bytes hold the epoch in front of the sequence number. */
  lemma SequenceValue(epoch: nat, number: nat)
    requires epoch < 0x1_0000 && number < 0x1_0000_0000_0000
    ensures var s := ToBigEndian(epoch, 2) + ToBigEndian(number, 6);
            BigEndian(s[..2]) == epoch && BigEndian(s) == epoch * 0x1_0000_0000_0000 + number
  {
    hide BigEndian, ToBigEndian, Pow2;
    Widths();
    var a, b := ToBigEndian(epoch, 2), ToBigEndian(number, 6);
    BigEndianInverse(epoch, 2);
    BigEndianInverse(number, 6);
    BigEndianSplit(a + b, 2);
    assert (a + b)[..2] == a && (a + b)[2..] == b;
  }

  /** Every DTLS version passes the null cipher, and only its own any other. */
  predicate GoodVersion(aead: ReadAead, version: nat)
  {
    if aead.isNull then 0xFE00 <= version <= 0xFEFF else version == aead.recordVersion
  }

  /** Accepted before, or 64 or more behind a number that was. */
  ghost predicate Stale(accepted: set<nat>, n: nat)
  {
    exists a :: a in accepted && (a == n || a >= n + 64)
  }

  /** A record that was sealed is judged on its own epoch and number, and exactly its bytes are consumed;
    * one of a foreign version, or with too long a body, takes the rest of the packet with it. */
  lemma SealedIsJudged(rEpoch: nat, accepted: set<nat>, aead: ReadAead, plain: Option<seq<byte>>,
                       kind: nat, version: nat, epoch: nat, number: nat, body: seq<byte>, x: seq<byte>)
    requires FitsHeader(kind, version, epoch, number, body)
    ensures var s := RecordBytes(kind, version, epoch, number, body);
            var (ret, consumed) := Open(rEpoch, accepted, s + x, aead, plain);
            var malformed := |body| > 16704 || !GoodVersion(aead, version);
            && consumed == (if malformed then |s| + |x| else 13 + |body|)
            && (ret == Discard <==>
                  || malformed || epoch != rEpoch || plain.None?
                  || Stale(accepted, epoch * 0x1_0000_0000_0000 + number))
            && (ret != Discard ==>
                  ret == if |plain.value| > 16384 then Error else if kind == 21 then Alert(plain.value) else Success(kind, plain.value))
  {
    hide ParseRecord, RecordBytes, Epoch, Number, ReplayWindow.Replayed, Stale;
    RecordParses(kind, version, epoch, number, body, x);
    StaleIsReplayed(accepted, epoch * 0x1_0000_0000_0000 + number);
  }

  lemma StaleIsReplayed(accepted: set<nat>, n: nat)
    ensures Stale(accepted, n) <==> ReplayWindow.Replayed(accepted, n)
  {
  }

  /** A packet that ends within a record is discarded whole. */
  lemma CutOffIsDiscarded(rEpoch: nat, accepted: set<nat>, aead: ReadAead, plain: Option<seq<byte>>,
                          kind: nat, version: nat, epoch: nat, number: nat, body: seq<byte>, n: nat)
    requires FitsHeader(kind, version, epoch, number, body) && n < |RecordBytes(kind, version, epoch, number, body)|
    ensures Open(rEpoch, accepted, RecordBytes(kind, version, epoch, number, body)[..n], aead, plain) == (Discard, n)
  {
    hide ParseRecord, RecordBytes, Epoch, Number, ReplayWindow.Replayed;
    var s := RecordBytes(kind, version, epoch, number, body);
    assert s[..n] + s[n..] == s && s + [] == s;
    RecordParses(kind, version, epoch, number, body, []);
    if ParseRecord(s[..n]).Got? { ParseStable(s[..n], s[n..]); }
  }

  /** More bytes behind a record do not change how it is read. */
  lemma ParseStable(s: seq<byte>, x: seq<byte>)
    requires ParseRecord(s).Got?
    ensures ParseRecord(s + x) == Got(ParseRecord(s).value, ParseRecord(s).rest + x)
  {
    hide GetUint, Take;
    UintStable(s, 1, x);
    var r1 := GetUint(s, 1).rest;
    UintStable(r1, 2, x);
    var r2 := GetUint(r1, 2).rest;
    TakeStable(r2, 8, x);
    var r3 := Take(r2, 8).rest;
    UintStable(r3, 2, x);
    var r4 := GetUint(r3, 2).rest;
    TakeStable(r4, GetUint(r3, 2).value, x);
  }

  lemma UintStable(s: seq<byte>, n: nat, x: seq<byte>)
    ensures GetUint(s, n).Got? ==> GetUint(s + x, n) == Got(GetUint(s, n).value, GetUint(s, n).rest + x)
  {
    TakeStable(s, n, x);
  }

  lemma TakeStable(s: seq<byte>, n: nat, x: seq<byte>)
    ensures Take(s, n).Got? ==> Take(s + x, n) == Got(Take(s, n).value, Take(s, n).rest + x)
  {
    if n <= |s| {
      assert (s + x)[..n] == s[..n] && (s + x)[n..] == s[n..] + x;
    }
  }
}
