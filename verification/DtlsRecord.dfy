/**
 * Reading DTLS records (dtls_open_record in dtls_record.cc, dtls1_set_read_state in
 * dtls_method.cc): header, epoch and replay checks, and what an epoch change does to them.
 */
module DtlsRecord {
  import opened Bytes
  import opened Cbs
  import opened ReplayWindow

  const MAX_ENCRYPTED_LENGTH: nat := 16704  // SSL3_RT_MAX_ENCRYPTED_LENGTH
  const MAX_PLAIN_LENGTH: nat := 16384
  const VERSION_MAJOR: nat := 0xFE
  const RT_HEADER_LENGTH: nat := 13

  const RT_CHANGE_CIPHER_SPEC: nat := 20
  const RT_ALERT: nat := 21
  const RT_HANDSHAKE: nat := 22
  const RT_APPLICATION_DATA: nat := 23

  datatype Header = Header(kind: nat, version: nat, sequence: seq<byte>, body: seq<byte>)

  /** Decodes one record from the front of a packet; Fail when incomplete or malformed. */
  function ParseRecord(s: seq<byte>): (p: Parsed<Header>)
    ensures p.Got? ==> |p.value.sequence| == 8 && |p.rest| < |s|
  {
    var (kind, r1) :- GetUint(s, 1);
    var (version, r2) :- GetUint(r1, 2);
    var (sequence, r3) :- Take(r2, 8);
    var (len, r4) :- GetUint(r3, 2);
    var (body, r5) :- Take(r4, len);
    if |body| > MAX_ENCRYPTED_LENGTH then Fail else Got(Header(kind, version, sequence, body), r5)
  }

  /** The epoch is the first two bytes of the sequence field. */
  function Epoch(h: Header): nat
    requires |h.sequence| == 8
  {
    BigEndian(h.sequence[..2])
  }

  /** The 64-bit record number: epoch and sequence together. */
  function Number(h: Header): nat
  {
    BigEndian(h.sequence)
  }

  /** The read cipher. What Open yields for a body is given to OpenRecord as `plain`. */
  datatype ReadAead = ReadAead(isNull: bool, recordVersion: nat)

  datatype OpenResult = CloseNotify | Incomplete | Discard | Error | Alert(data: seq<byte>) | Success(kind: nat, data: seq<byte>)

  predicate VersionOk(aead: ReadAead, version: nat)
  {
    if aead.isNull then version / 256 == VERSION_MAJOR else version == aead.recordVersion
  }

  /** A record as dtls_seal_record lays it out: type, version, epoch, 48-bit sequence number, length, and
    * what the cipher has made of the payload. */
  function RecordBytes(kind: nat, version: nat, epoch: nat, number: nat, body: seq<byte>): (s: seq<byte>)
    ensures |s| == RT_HEADER_LENGTH + |body|
  {
    ToBigEndian(kind, 1) + (ToBigEndian(version, 2) + (ToBigEndian(epoch, 2) + ToBigEndian(number, 6) +
    (ToBigEndian(|body|, 2) + body)))
  }

  /** What dtls_open_record answers, and how much of the input it consumes, when the numbers in
    * `accepted` have passed in epoch `rEpoch`. */
  ghost function Open(rEpoch: nat, accepted: set<nat>, input: seq<byte>, aead: ReadAead, plain: Option<seq<byte>>): (r: (OpenResult, nat))
    ensures r.1 <= |input|
  {
    match ParseRecord(input)
    case Fail => (Discard, |input|)
    case Got(h, rest) =>
      if !VersionOk(aead, h.version) then (Discard, |input|)
      else (Judge(rEpoch, accepted, Epoch(h), Number(h), h.kind, plain), |input| - |rest|)
  }

  /** The checks behind the header. */
  ghost function Judge(rEpoch: nat, accepted: set<nat>, epoch: nat, number: nat, kind: nat, plain: Option<seq<byte>>): OpenResult
  {
    if epoch != rEpoch || Replayed(accepted, number) || plain.None? then Discard
    else if |plain.value| > MAX_PLAIN_LENGTH then Error
    else if kind == RT_ALERT then Alert(plain.value)
    else Success(kind, plain.value)
  }

  /** The epoch of a record number. */
  lemma NumberEpoch(h: Header)
    requires |h.sequence| == 8
    ensures Number(h) / 0x1_0000_0000_0000 == Epoch(h)
  {
    hide BigEndian, Pow2;
    var s := h.sequence;
    BigEndianSplit(s, 2);
    BigEndianBound(s[2..]);
    Widths();
  }

  lemma {:induction false} BigEndianSplit(s: seq<byte>, n: nat)
    requires n <= |s|
    ensures BigEndian(s) == BigEndian(s[..n]) * Pow2(8 * (|s| - n)) + BigEndian(s[n..])
  {
    if n == |s| {
      assert s[..n] == s && s[n..] == [] && Pow2(0) == 1;
    } else {
      var t := s[..|s| - 1];
      BigEndianSplit(t, n);
      assert t[..n] == s[..n] && s[n..][..|s| - n - 1] == t[n..];
      var m := 8 * (|t| - n);
      Pow2Step7(m);
      assert Pow2(m + 8) == 256 * Pow2(m);
      Spread(BigEndian(s[..n]), Pow2(m), BigEndian(t[n..]), s[|s| - 1]);
    }
  }

  lemma Spread(a: nat, p: nat, b: nat, c: nat)
    ensures 256 * (a * p + b) + c == a * (256 * p) + (256 * b + c)
  {
  }

  /** The reading half of the record layer. `accepted` holds the number of every record that has
    * passed, in any epoch. */
  class RecordReader {
    var rEpoch: nat
    const bitmap: Bitmap
    ghost var accepted: set<nat>

    /** The window knows the accepted records of the current epoch; no other epoch is ahead. */
    ghost predicate Valid()
      reads this, bitmap
    {
      && bitmap.Valid()
      && bitmap.accepted <= accepted
      && forall a :: a in accepted ==>
          a / 0x1_0000_0000_0000 <= rEpoch && (a / 0x1_0000_0000_0000 == rEpoch ==> a in bitmap.accepted)
    }

    constructor ()
      ensures Valid() && rEpoch == 0 && accepted == {} && fresh(bitmap)
    {
      rEpoch, accepted := 0, {};
      bitmap := new Bitmap();
    }

    /** dtls_open_record. A record passes only if its epoch is current and its number was never
      * accepted before, in this epoch or another; one that passes is on record from then on. */
    method OpenRecord(input: seq<byte>, aead: ReadAead, plain: Option<seq<byte>>, readClosed: bool)
      returns (ret: OpenResult, consumed: nat)
      requires Valid()
      modifies bitmap, this`accepted
      ensures Valid() && consumed <= |input|
      ensures readClosed ==> ret == CloseNotify && consumed == 0
      ensures !readClosed && input == [] ==> ret == Incomplete && consumed == 0
      ensures !readClosed && input != [] ==> (ret, consumed) == Open(rEpoch, old(bitmap.accepted), input, aead, plain)
      ensures if ret.Alert? || ret.Success?
              then
                var n := Number(ParseRecord(input).value);
                n !in old(accepted) && accepted == old(accepted) + {n} && bitmap.accepted == old(bitmap.accepted) + {n}
              else accepted == old(accepted) && bitmap.accepted == old(bitmap.accepted)
    {
      hide BigEndian, Replayed, Represents;
      if readClosed {
        return CloseNotify, 0;
      }
      if input == [] {
        return Incomplete, 0;
      }
      var p := ParseRecord(input);
      if p.Fail? {
        return Discard, |input|;
      }
      var Got(h, rest) := p;
      if !VersionOk(aead, h.version) {
        return Discard, |input|;
      }
      consumed := |input| - |rest|;
      var epoch := BigEndian(h.sequence[..2]);
      var replayed := bitmap.ShouldDiscard(h.sequence);
      if epoch != rEpoch || replayed {
        return Discard, consumed;
      }
      if plain.None? {
        return Discard, consumed;
      }
      if |plain.value| > MAX_PLAIN_LENGTH {
        return Error, consumed;
      }
      NumberEpoch(h);
      NotReplayed(bitmap.accepted, Number(h));
      bitmap.Record(h.sequence);
      accepted := accepted + {Number(h)};
      if h.kind == RT_ALERT {
        return Alert(plain.value), consumed;
      }
      return Success(h.kind, plain.value), consumed;
    }

    /** The part of dtls1_set_read_state that touches the record layer. */
    method NextEpoch()
      requires Valid()
      modifies this, bitmap
      ensures Valid() && rEpoch == old(rEpoch) + 1 && accepted == old(accepted) && bitmap.accepted == {}
    {
      rEpoch := rEpoch + 1;
      bitmap.Clear();
    }
  }

  lemma NotReplayed(accepted: set<nat>, u: nat)
    requires !Replayed(accepted, u)
    ensures u !in accepted
  {
  }
}
