/**
 * The bytes of the wire format one by one, apart from the functions that write and read them: varints,
 * fixed-width numbers (pb_encode_fixed32, pb_decode_fixed32 and their 64-bit siblings) and known messages.
 */
module WireBytes {
  import opened Bytes
  import opened Bits
  import opened Varint
  import opened Wire
  import Cbs

  // ---------------------------------------------------------------- varints

  /** Byte i holds bits 7i to 7i + 6, and asks for another byte exactly if it is not the last. */
  lemma {:induction false} VarintByte(v: nat, i: nat)
    requires i < |Encode(v)|
    ensures Encode(v)[i] % 128 == v / Pow2(7 * i) % 128
    ensures Encode(v)[i] >= 128 <==> i < |Encode(v)| - 1
  {
    if i == 0 {
      assert Pow2(0) == 1;
    } else {
      VarintByte(v / 128, i - 1);
      Pow2Step7(7 * (i - 1));
      DivTwice(v, 128, Pow2(7 * (i - 1)));
    }
  }

  lemma DivTwice(v: nat, a: nat, b: nat)
    requires a > 0 && b > 0
    ensures v / a / b == v / (a * b)
  {
    var x := v / a;
    Nested(v, a, b, x / b, x % b, v % a);
  }

  lemma Nested(v: nat, a: nat, b: nat, q: nat, n: nat, m: nat)
    requires a > 0 && b > 0 && v == a * (b * q + n) + m && n < b && m < a
    ensures a * b > 0 && v / (a * b) == q
  {
    Distribute(a, b, q, n);
    RemainderBound(a, b, m, n);
    DivUnique(v, a * b, q, a * n + m);
  }

  lemma Distribute(a: nat, b: nat, q: nat, r: nat)
    ensures a * (b * q + r) == (a * b) * q + a * r
  {
  }

  lemma RemainderBound(a: nat, b: nat, r: nat, r': nat)
    requires r < a && r' < b
    ensures a * r' + r < a * b
  {
    assert a * r' <= a * (b - 1);
  }

  lemma DivUnique(v: nat, m: nat, q: nat, r: nat)
    requires m > 0 && v == m * q + r && r < m
    ensures v / m == q
  {
    Multiple(m, v / m - q);
    assert m * (v / m - q) == m * (v / m) - m * q;
  }

  lemma Multiple(m: nat, d: int)
    requires m > 0
    ensures d >= 1 ==> m * d >= m
    ensures d <= -1 ==> m * d + m <= 0
  {
  }

  // ---------------------------------------------------------------- fixed-width numbers

  /** Byte i holds bits 8i to 8i + 7. */
  lemma {:induction false} LittleEndianByte(v: nat, n: nat, i: nat)
    requires i < n
    ensures LittleEndian(v, n)[i] == v / Pow2(8 * i) % 256
  {
    if i == 0 {
      assert Pow2(0) == 1;
    } else {
      LittleEndianByte(v / 256, n - 1, i - 1);
      Cbs.EightMore(i - 1);
      DivTwice(v, 256, Pow2(8 * (i - 1)));
    }
  }

  lemma {:induction false} FromLittleEndianByte(s: seq<byte>)
    requires s != []
    ensures FromLittleEndian(s) == FromLittleEndian(s[..|s| - 1]) + s[|s| - 1] * Pow2(8 * (|s| - 1))
    ensures FromLittleEndian(s) < Pow2(8 * |s|)
  {
    var n := |s| - 1;
    assert Pow2(0) == 1;
    Cbs.EightMore(n);
    if n == 0 {
      assert s[1..] == [];
    } else {
      hide Pow2;
      FromLittleEndianByte(s[1..]);
      assert s[1..][..n - 1] == s[..n][1..];
      Cbs.EightMore(n - 1);
      Weigh(FromLittleEndian(s[1..][..n - 1]), s[n], Pow2(8 * (n - 1)), s[0]);
    }
  }

  lemma Weigh(a: nat, b: nat, p: nat, c: nat)
    ensures c + 256 * (a + b * p) == c + 256 * a + b * (256 * p)
  {
  }

  /** Weights of the bytes of a word. */
  lemma ByteWeights()
    ensures Pow2(0) == 1 && Pow2(8) == 0x100 && Pow2(16) == 0x1_0000 && Pow2(24) == 0x100_0000
    ensures Pow2(32) == 0x1_0000_0000 && Pow2(40) == 0x100_0000_0000 && Pow2(48) == 0x1_0000_0000_0000
    ensures Pow2(56) == 0x100_0000_0000_0000 && Pow2(64) == TWO_64
  {
    hide Pow2;
    PowZero();
    Cbs.Widths();
    Cbs.EightMore(3);
    Cbs.EightMore(4);
    Cbs.EightMore(6);
    Cbs.EightMore(7);
  }

  lemma PowZero()
    ensures Pow2(0) == 1
  {
  }

  /** The masks and shifts of pb_encode_fixed32 and pb_encode_fixed64. */
  lemma MaskedByte(v: nat, i: nat, n: nat)
    requires i < n
    ensures And(ShiftRight(v, 8 * i), 0xFF) == LittleEndian(v, n)[i]
  {
    hide LittleEndian, ShiftRight, And, Pow2;
    LittleEndianByte(v, n, i);
    ShiftDivides(v, 8 * i);
    LowBits(ShiftRight(v, 8 * i), 8);
    Cbs.Widths();
  }

  lemma MaskedBytes(v: nat, n: nat)
    ensures forall k: nat :: k < 8 * n && k % 8 == 0 ==> And(ShiftRight(v, k), 0xFF) == LittleEndian(v, n)[k / 8]
  {
    hide LittleEndian, ShiftRight, And;
    forall k: nat | k < 8 * n && k % 8 == 0 ensures And(ShiftRight(v, k), 0xFF) == LittleEndian(v, n)[k / 8] {
      MaskedByte(v, k / 8, n);
    }
  }

  lemma {:induction false} ShiftDivides(v: nat, k: nat)
    ensures ShiftRight(v, k) == v / Pow2(k)
  {
    if k > 0 {
      ShiftDivides(v / 2, k - 1);
      DivTwice(v, 2, Pow2(k - 1));
    }
  }

  lemma {:induction false} LowBits(v: nat, n: nat)
    ensures And(v, Pow2(n) - 1) == v % Pow2(n)
  {
    hide And, Pow2;
    MaskNone(v);
    PowZero();
    if n > 0 {
      PowStep(n);
      LowBits(v / 2, n - 1);
      ModTwice(v, Pow2(n - 1));
      MaskHalf(v, Pow2(n - 1));
    }
  }

  lemma MaskNone(v: nat)
    ensures And(v, 0) == 0
  {
  }

  lemma PowStep(n: nat)
    requires n > 0
    ensures Pow2(n) == 2 * Pow2(n - 1)
  {
  }

  lemma MaskHalf(v: nat, m: nat)
    requires m > 0
    ensures And(v, 2 * m - 1) == v % 2 + 2 * And(v / 2, m - 1)
  {
    assert (2 * m - 1) / 2 == m - 1 && (2 * m - 1) % 2 == 1;
  }

  lemma ModTwice(v: nat, m: nat)
    requires m > 0
    ensures v % (2 * m) == v % 2 + 2 * (v / 2 % m)
  {
    var q := v / 2 / m;
    assert v / 2 == m * q + v / 2 % m;
    assert v == (2 * m) * q + (v % 2 + 2 * (v / 2 % m)) by { Distribute(2, m, q, v / 2 % m); }
    DivUnique(v, 2 * m, q, v % 2 + 2 * (v / 2 % m));
  }

  /** The shifts and ors of pb_decode_fixed32 and pb_decode_fixed64. */
  lemma OrByte(s: seq<byte>, i: nat)
    requires i < |s|
    ensures Or(FromLittleEndian(s[..i]), ShiftLeft(s[i], 8 * i)) == FromLittleEndian(s[..i + 1])
  {
    hide FromLittleEndian, Or, ShiftLeft, Pow2;
    assert s[..i + 1][..i] == s[..i];
    FromLittleEndianByte(s[..i + 1]);
    ShiftMultiplies(s[i], 8 * i);
    if i == 0 { EmptyWord(); } else { FromLittleEndianByte(s[..i]); }
    OrDisjoint(FromLittleEndian(s[..i]), s[i], 8 * i);
  }

  lemma EmptyWord()
    ensures FromLittleEndian([]) == 0 < Pow2(0)
  {
  }

  lemma {:induction false} ShiftMultiplies(v: nat, k: nat)
    ensures ShiftLeft(v, k) == v * Pow2(k)
  {
    if k > 0 { ShiftMultiplies(v, k - 1); }
  }

  function Word(a: nat, b: nat, c: nat, d: nat): nat
  {
    a + 0x100 * b + 0x1_0000 * c + 0x100_0000 * d
  }

  /** What four or eight bytes stand for. */
  lemma FixedWords(s: seq<byte>)
    ensures |s| == 4 ==> FromLittleEndian(s) == Word(s[0], s[1], s[2], s[3])
    ensures |s| == 8 ==> FromLittleEndian(s) == Word(s[0], s[1], s[2], s[3]) + 0x1_0000_0000 * Word(s[4], s[5], s[6], s[7])
  {
    hide FromLittleEndian;
    if |s| == 4 {
      LowWord(s);
      assert s[..4] == s;
    } else if |s| == 8 {
      LowWord(s);
      HighWord(s);
      assert s[..8] == s;
    }
  }

  lemma LowWord(s: seq<byte>)
    requires |s| >= 4
    ensures FromLittleEndian(s[..4]) == Word(s[0], s[1], s[2], s[3])
  {
    hide FromLittleEndian, Pow2;
    ByteWeights();
    EmptyWord();
    assert s[..0] == [];
    Front(s, 1);
    Front(s, 2);
    Front(s, 3);
    Front(s, 4);
  }

  lemma HighWord(s: seq<byte>)
    requires |s| >= 8
    ensures FromLittleEndian(s[..8]) == FromLittleEndian(s[..4]) + 0x1_0000_0000 * Word(s[4], s[5], s[6], s[7])
  {
    hide FromLittleEndian, Pow2;
    ByteWeights();
    Front(s, 5);
    Front(s, 6);
    Front(s, 7);
    Front(s, 8);
  }

  lemma Front(s: seq<byte>, i: nat)
    requires 0 < i <= |s|
    ensures FromLittleEndian(s[..i]) == FromLittleEndian(s[..i - 1]) + s[i - 1] * Pow2(8 * (i - 1))
  {
    hide FromLittleEndian, Pow2;
    FromLittleEndianByte(s[..i]);
    assert s[..i][..i - 1] == s[..i - 1];
  }
}
