/**
 * The bit mask in which pb_decode_noinit records the required fields it has seen
 * (pb_decode.c: two 32-bit words for PB_MAX_REQUIRED_FIELDS == 64).
 */
module RequiredMask {
  import opened Bytes
  import opened Bits
  import opened Schema
  import Wire
  import opened Iterator

  const ALL_BITS: nat := 0xFFFF_FFFF

  /** The two words hold exactly the members of `seen`. */
  ghost predicate Holds(words: seq<nat>, seen: set<nat>)
  {
    && |words| == 2
    && (forall k :: k in seen ==> k < MAX_REQUIRED_FIELDS)
    && forall w: nat, k: nat :: w < 2 ==> (Bit(words[w], k) <==> k < 32 && 32 * w + k in seen)
  }

  lemma AllBitsIsOnes()
    ensures ALL_BITS == Pow2(32) - 1
  {
    assert Pow2(8) == 256;
    assert Pow2(16) == 0x1_0000;
    assert Pow2(24) == 0x100_0000;
  }

  /** A word of the mask is the n lowest bits exactly when the n members it can hold are there. */
  lemma WordFull(words: seq<nat>, seen: set<nat>, w: nat, n: nat)
    requires Holds(words, seen) && w < 2 && n <= 32
    requires forall k :: k in seen && k >= 32 * w ==> k < 32 * w + n || k >= 32 * w + 32
    ensures words[w] == Pow2(n) - 1 <==> forall k :: 32 * w <= k < 32 * w + n ==> k in seen
  {
    hide Bit, Pow2;
    if words[w] == Pow2(n) - 1 { FullWordSeen(words, seen, w, n); }
    if forall k :: 32 * w <= k < 32 * w + n ==> k in seen { SeenWordFull(words, seen, w, n); }
  }

  lemma FullWordSeen(words: seq<nat>, seen: set<nat>, w: nat, n: nat)
    requires Holds(words, seen) && w < 2 && n <= 32 && words[w] == Pow2(n) - 1
    ensures forall k :: 32 * w <= k < 32 * w + n ==> k in seen
  {
    hide Bit, Pow2;
    forall k | 32 * w <= k < 32 * w + n ensures k in seen {
      OnesBit(n, k - 32 * w);
      assert Bit(words[w], k - 32 * w);
    }
  }

  lemma SeenWordFull(words: seq<nat>, seen: set<nat>, w: nat, n: nat)
    requires Holds(words, seen) && w < 2 && n <= 32
    requires forall k :: k in seen && k >= 32 * w ==> k < 32 * w + n || k >= 32 * w + 32
    requires forall k :: 32 * w <= k < 32 * w + n ==> k in seen
    ensures words[w] == Pow2(n) - 1
  {
    hide Bit, Pow2;
    forall k: nat ensures Bit(words[w], k) == Bit(Pow2(n) - 1, k) {
      OnesBit(n, k);
    }
    BitsDetermine(words[w], Pow2(n) - 1);
  }

  /** fields_seen[index >> 5] |= 1 << (index & 31) */
  method MarkSeen(fieldsSeen: array<nat>, index: nat, ghost seen: set<nat>)
    requires Holds(fieldsSeen[..], seen) && index < MAX_REQUIRED_FIELDS
    modifies fieldsSeen
    ensures Holds(fieldsSeen[..], seen + {index})
  {
    ghost var words := fieldsSeen[..];
    var tmp := Pow2(index % 32);
    fieldsSeen[index / 32] := Or(fieldsSeen[index / 32], tmp);
    forall w: nat, k: nat | w < 2
      ensures Bit(fieldsSeen[..][w], k) <==> k < 32 && 32 * w + k in seen + {index}
    {
      assert Bit(words[w], k) <==> k < 32 && 32 * w + k in seen;
      OrBit(words[w], index % 32, k);
    }
  }

  /** Seeks to the end of the table to count the required fields, one more when the last is. */
  method CountRequired(iter: FieldIter) returns (count: nat)
    requires iter.Valid()
    modifies iter
    ensures iter.Valid() && count == RequiredBefore(iter.fields, |iter.fields|)
  {
    var more := true;
    var lastRequired := false;
    count := 0;
    ghost var n := |iter.fields|;
    while more
      invariant iter.Valid()
      invariant !more && n == 0 ==> count == 0
      invariant !more && n > 0 ==> count == RequiredBefore(iter.fields, n - 1)
      invariant !more && n > 0 ==> lastRequired == iter.fields[n - 1].rule.Required?
      decreases if more then |iter.fields| - iter.pos + 1 else 0
    {
      count := iter.requiredFieldIndex;
      lastRequired := iter.Tag(iter.pos) == 0 || iter.fields[iter.pos].rule.Required?;
      more := iter.Next();
    }
    if lastRequired && iter.Tag(iter.pos) != 0 {
      count := count + 1;
    }
  }

  /** The check at the end of pb_decode_noinit passes exactly when each of the first 64 required
    * fields was seen. */
  method CheckRequired(iter: FieldIter, fieldsSeen: array<nat>, ghost seen: set<nat>) returns (ok: bool)
    requires iter.Valid() && Holds(fieldsSeen[..], seen)
    requires forall k :: k in seen ==> k < RequiredBefore(iter.fields, |iter.fields|)
    modifies iter
    ensures iter.Valid() && ok == Wire.AllRequiredSeen(iter.fields, seen)
  {
    var count := CountRequired(iter);
    if count > MAX_REQUIRED_FIELDS {
      count := MAX_REQUIRED_FIELDS;
    }
    AllBitsIsOnes();
    if count > 0 {
      var i := 0;
      while i < count / 32
        modifies {}
        invariant i <= count / 32
        invariant forall k :: 0 <= k < 32 * i ==> k in seen
      {
        WordFull(fieldsSeen[..], seen, i, 32);
        if fieldsSeen[i] != ALL_BITS {
          assert exists k :: 32 * i <= k < 32 * i + 32 && k !in seen;
          return false;
        }
        i := i + 1;
      }
      if count % 32 != 0 {
        ShiftOnes(count % 32, 32 - count % 32);
        WordFull(fieldsSeen[..], seen, count / 32, count % 32);
        if fieldsSeen[count / 32] != ShiftRight(ALL_BITS, 32 - count % 32) {
          return false;
        }
      }
    }
    return true;
  }
}
