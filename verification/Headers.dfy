/**
 * The headers of handshake messages, fragments and stream records byte by byte (dtls1_init_message and
 * dtls1_parse_fragment in d1_both.cc, ssl3_init_message in s3_both.cc, do_seal_record in tls_record.cc).
 */
module Headers {
  import opened Bytes
  import opened Cbs
  import opened Fragments
  import StreamFraming
  import WireBytes

  /** Byte i of a big-endian number. */
  lemma {:induction false} BigEndianByte(v: nat, n: nat, i: nat)
    requires i < n
    ensures ToBigEndian(v, n)[i] == v / Pow2(8 * (n - 1 - i)) % 256
  {
    if i == n - 1 {
      assert Pow2(0) == 1;
    } else {
      BigEndianByte(v / 256, n - 1, i);
      var k := n - 2 - i;
      EightMore(k);
      WireBytes.DivTwice(v, 256, Pow2(8 * k));
    }
  }

  lemma One(v: nat)
    requires v < 0x100
    ensures ToBigEndian(v, 1) == [v]
  {
    assert ToBigEndian(0, 0) == [];
  }

  lemma Two(v: nat)
    requires v < 0x1_0000
    ensures ToBigEndian(v, 2) == [v / 256, v % 256]
  {
    hide ToBigEndian, Pow2;
    Widths();
    PowZero();
    BigEndianByte(v, 2, 0);
    BigEndianByte(v, 2, 1);
  }

  lemma Three(v: nat)
    requires v < 0x100_0000
    ensures ToBigEndian(v, 3) == [v / 0x1_0000, v / 256 % 256, v % 256]
  {
    hide ToBigEndian, Pow2;
    Widths();
    PowZero();
    BigEndianByte(v, 3, 0);
    BigEndianByte(v, 3, 1);
    BigEndianByte(v, 3, 2);
  }

  lemma PowZero()
    ensures Pow2(0) == 1
  {
  }

  /** Type, message length, sequence number, offset and fragment length. */
  lemma FragmentHeader(f: Fragment)
    requires Fits(f)
    ensures var n := |f.body|;
            Serialize(f) ==
            [f.kind, f.msgLen / 0x1_0000, f.msgLen / 256 % 256, f.msgLen % 256, f.seq_ / 256, f.seq_ % 256,
             f.off / 0x1_0000, f.off / 256 % 256, f.off % 256, n / 0x1_0000, n / 256 % 256, n % 256] + f.body
  {
    hide ToBigEndian;
    One(f.kind);
    Three(f.msgLen);
    Two(f.seq_);
    Three(f.off);
    Three(|f.body|);
  }

  /** Type and length of a message in a stream; type, version and length of a record. */
  lemma StreamHeaders(m: Msg, version: nat, payload: seq<byte>)
    requires StreamFraming.Sendable(m) && version < 0x1_0000 && |payload| < 0x1_0000
    ensures var n := |m.body|; StreamFraming.MsgBytes(m) == [m.kind, n / 0x1_0000, n / 256 % 256, n % 256] + m.body
    ensures StreamFraming.RecordBytes(version, payload) ==
            [22, version / 256, version % 256, |payload| / 256, |payload| % 256] + payload
  {
    hide ToBigEndian;
    One(m.kind);
    Three(|m.body|);
    Two(version);
    Two(|payload|);
  }

  /** A record of another type is never taken for one of handshake messages. */
  lemma OtherTypeFails(cipher: StreamFraming.ReadCipher, kind: byte, s: seq<byte>)
    requires kind != 22
    ensures StreamFraming.ParseRecord(cipher, [kind] + s).Fail?
  {
    assert ([kind] + s)[..1] == [kind] && [kind][..0] == [];
  }
}
