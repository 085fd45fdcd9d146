/**
 * Big-endian integers on byte strings (CBS_get_u8, _u16, _u24 and the CBB counterparts).
 */
module Cbs {
  import opened Bytes

  function BigEndian(s: seq<byte>): nat
  {
    if s == [] then 0 else 256 * BigEndian(s[..|s| - 1]) + s[|s| - 1]
  }

  /** v on n bytes. */
  function ToBigEndian(v: nat, n: nat): (s: seq<byte>)
    ensures |s| == n
  {
    if n == 0 then [] else ToBigEndian(v / 256, n - 1) + [v % 256]
  }

  lemma {:induction false} BigEndianInverse(v: nat, n: nat)
    requires v < Pow2(8 * n)
    ensures BigEndian(ToBigEndian(v, n)) == v
  {
    if n == 0 {
      assert Pow2(0) == 1;
    } else {
      hide Pow2;
      TopBytes(v, n);
      BigEndianInverse(v / 256, n - 1);
      var s := ToBigEndian(v, n);
      assert s[..n - 1] == ToBigEndian(v / 256, n - 1);
    }
  }

  /** A number of n bytes without its last byte is a number of n - 1 bytes. */
  lemma TopBytes(v: nat, n: nat)
    requires n > 0 && v < Pow2(8 * n)
    ensures v / 256 < Pow2(8 * (n - 1)) && v == 256 * (v / 256) + v % 256
  {
    EightMore(n - 1);
    hide Pow2;
    assert v < 256 * Pow2(8 * (n - 1));
  }

  lemma EightMore(n: nat)
    ensures Pow2(8 * (n + 1)) == 256 * Pow2(8 * n)
  {
    Pow2Step7(8 * n);
    assert Pow2(8 * (n + 1)) == 2 * Pow2(8 * (n + 1) - 1);
  }

  lemma {:induction false} BigEndianBound(s: seq<byte>)
    ensures BigEndian(s) < Pow2(8 * |s|)
  {
    if s != [] {
      hide Pow2;
      EightMore(|s| - 1);
      BigEndianBound(s[..|s| - 1]);
    }
  }

  lemma Widths()
    ensures Pow2(8) == 0x100 && Pow2(16) == 0x1_0000 && Pow2(24) == 0x100_0000 && Pow2(48) == 0x1_0000_0000_0000
  {
    assert Pow2(8) == 256;
    assert Pow2(16) == 256 * Pow2(8) by { Pow2Step7(8); }
    assert Pow2(24) == 256 * Pow2(16) by { Pow2Step7(16); }
    assert Pow2(32) == 256 * Pow2(24) by { Pow2Step7(24); }
    assert Pow2(40) == 256 * Pow2(32) by { Pow2Step7(32); }
    assert Pow2(48) == 256 * Pow2(40) by { Pow2Step7(40); }
  }

  /** CBS_get_u8, CBS_get_u16, CBS_get_u24: an n-byte integer. */
  function GetUint(s: seq<byte>, n: nat): Parsed<nat>
  {
    var (b, r) :- Take(s, n);
    Got(BigEndian(b), r)
  }

  /** CBS_get_uN reads back what CBB_add_uN wrote. */
  lemma UintRoundTrip(v: nat, n: nat, x: seq<byte>)
    requires n in {1, 2, 3}
    requires v < if n == 1 then 0x100 else if n == 2 then 0x1_0000 else 0x100_0000
    ensures GetUint(ToBigEndian(v, n) + x, n) == Got(v, x)
  {
    hide BigEndian, ToBigEndian;
    Widths();
    BigEndianInverse(v, n);
    var e := ToBigEndian(v, n);
    assert (e + x)[..n] == e && (e + x)[n..] == x;
  }
}
