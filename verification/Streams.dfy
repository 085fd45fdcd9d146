/**
 * Bounded byte streams over memory buffers and the varint coders that run on them
 * (pb_ostream_t in pb_encode.c, pb_istream_t in pb_decode.c).
 */
module Streams {
  import opened Bytes
  import Varint

  function Overwrite(m: seq<byte>, at: nat, data: seq<byte>): (r: seq<byte>)
    requires at + |data| <= |m|
    ensures |r| == |m|
  {
    m[..at] + data + m[at + |data|..]
  }

  /** What an output stream and its memory are at some moment. */
  datatype Snapshot = Snapshot(writing: bool, state: nat, maxSize: nat, bytesWritten: nat, bytes: seq<byte>)
  {
    predicate Valid()
    {
      writing ==> bytesWritten <= maxSize && state + (maxSize - bytesWritten) <= |bytes|
    }

    /** Room for n more bytes: always, when only counting. */
    predicate Room(n: nat)
    {
      !writing || bytesWritten + n <= maxSize
    }

    /** The stream after `data` has been written: the memory changes nowhere else. */
    function Put(data: seq<byte>): (q: Snapshot)
      requires Valid() && Room(|data|)
      ensures q.Valid() && Within(q)
    {
      if !writing then this.(bytesWritten := bytesWritten + |data|)
      else Snapshot(true, state + |data|, maxSize, bytesWritten + |data|, Overwrite(bytes, state, data))
    }

    /** q is a later state of this stream: it has written nothing outside its budget. */
    predicate Within(q: Snapshot)
      requires Valid()
    {
      && q.writing == writing && q.maxSize == maxSize && q.bytesWritten >= bytesWritten
      && |q.bytes| == |bytes|
      && if !writing then q.state == state && q.bytes == bytes
         else
           && q.state - q.bytesWritten == state - bytesWritten
           && q.bytesWritten <= maxSize
           && q.bytes[..state] == bytes[..state]
           && q.bytes[state + (maxSize - bytesWritten)..] == bytes[state + (maxSize - bytesWritten)..]
    }
  }

  lemma PutEmpty(p: Snapshot)
    requires p.Valid()
    ensures p.Put([]) == p
  {
    if p.writing { assert Overwrite(p.bytes, p.state, []) == p.bytes; }
  }

  lemma PutTwice(p: Snapshot, a: seq<byte>, b: seq<byte>)
    requires p.Valid() && p.Room(|a| + |b|)
    ensures p.Put(a).Put(b) == p.Put(a + b)
  {
    if p.writing {
      assert Overwrite(Overwrite(p.bytes, p.state, a), p.state + |a|, b) == Overwrite(p.bytes, p.state, a + b);
    }
  }

  lemma WithinTrans(p: Snapshot, q: Snapshot, r: Snapshot)
    requires p.Valid() && q.Valid() && p.Within(q) && q.Within(r)
    ensures p.Within(r)
  {
    if p.writing {
      var hi := p.state + (p.maxSize - p.bytesWritten);
      assert r.bytes[..p.state] == r.bytes[..q.state][..p.state] == q.bytes[..q.state][..p.state] == p.bytes[..p.state];
      assert hi == q.state + (q.maxSize - q.bytesWritten);
    }
  }

  /** pb_ostream_t: writes into `memory` from `state` on, or only counts when `writing` is false. */
  class OStream {
    const writing: bool
    const memory: array<byte>
    var state: nat
    var maxSize: nat
    var bytesWritten: nat

    ghost predicate Valid()
      reads this, memory
    {
      Now().Valid()
    }

    /** pb_ostream_from_buffer, also the substream of pb_encode_submessage. */
    constructor OnBuffer(memory: array<byte>, start: nat, size: nat)
      requires start + size <= memory.Length
      ensures Valid() && writing && this.memory == memory
      ensures state == start && maxSize == size && bytesWritten == 0
    {
      this.writing, this.memory := true, memory;
      this.state, this.maxSize, this.bytesWritten := start, size, 0;
    }

    /** PB_OSTREAM_SIZING */
    constructor Sizing()
      ensures Valid() && !writing && bytesWritten == 0 && fresh(memory)
    {
      this.writing, this.memory := false, new byte[0];
      this.state, this.maxSize, this.bytesWritten := 0, 0, 0;
    }

    /** The stream's fields and the memory behind it. */
    function Now(): Snapshot
      reads this, memory
    {
      Snapshot(writing, state, maxSize, bytesWritten, memory[..])
    }

    /** buf_write */
    method BufWrite(data: seq<byte>)
      requires state + |data| <= memory.Length
      modifies this`state, memory
      ensures state == old(state) + |data|
      ensures memory[..] == Overwrite(old(memory[..]), old(state), data)
    {
      var dest := state;
      state := dest + |data|;
      var i := 0;
      while i < |data|
        modifies memory
        invariant i <= |data|
        invariant forall k :: 0 <= k < memory.Length ==>
                                memory[k] == if dest <= k < dest + i then data[k - dest] else old(memory[k])
      {
        memory[dest + i] := data[i];
        i := i + 1;
      }
    }

    /** pb_write */
    method Write(data: seq<byte>) returns (ok: bool)
      requires Valid()
      modifies this, memory
      ensures Valid() && ok == old(Now().Room(|data|))
      ensures Now() == if ok then old(Now()).Put(data) else old(Now())
    {
      if writing {
        if bytesWritten + |data| > maxSize {
          return false;
        }
        BufWrite(data);
      }
      bytesWritten := bytesWritten + |data|;
      return true;
    }

    /** pb_write(stream, NULL, size) on a sizing stream. */
    method Count(size: nat)
      requires Valid() && !writing
      modifies this
      ensures Valid() && Now() == old(Now()).(bytesWritten := old(bytesWritten) + size)
    {
      bytesWritten := bytesWritten + size;
    }

    /** pb_encode_varint */
    method EncodeVarint(v: nat) returns (ok: bool)
      requires Valid() && v < TWO_64
      modifies this, memory
      ensures Valid() && ok == old(Now().Room(|Varint.Encode(v)|))
      ensures Now() == if ok then old(Now()).Put(Varint.Encode(v)) else old(Now())
    {
      if v <= 0x7F {
        ok := Write([v]);
        return;
      }
      var buffer, i := VarintBuffer(v);
      ok := Write(buffer[..i]);
    }
  }

  /** The loop of pb_encode_varint over its ten-byte local buffer. */
  method VarintBuffer(v: nat) returns (buffer: array<byte>, i: nat)
    requires 0 < v < TWO_64
    ensures fresh(buffer) && i <= buffer.Length && buffer[..i] == Varint.Encode(v)
  {
    hide Varint.Encode;
    buffer := new byte[10];
    var value := v;
    i := 0;
    ghost var code := Varint.Encode(v);
    Varint.EncodeLength64(v);
    while value != 0
      invariant i <= 10
      invariant value == 0 ==> i > 0 && buffer[i - 1] >= 128 && buffer[..i - 1] + [buffer[i - 1] - 128] == code
      invariant value != 0 ==> buffer[..i] + Varint.Encode(value) == code
      decreases value
    {
      ghost var before := buffer[..i];
      EncodeTurn(before, value, code);
      buffer[i] := value % 128 + 128;
      assert buffer[..i + 1] == before + [value % 128 + 128];
      value := value / 128;
      i := i + 1;
      assert buffer[..i - 1] == before;
    }
    ghost var init := buffer[..i - 1];
    buffer[i - 1] := buffer[i - 1] - 128;
    assert buffer[..i] == init + [buffer[i - 1]];
  }

  /** One turn of the loop: the next byte of the code, and what is left of it. */
  lemma EncodeTurn(before: seq<byte>, w: nat, code: seq<byte>)
    requires before + Varint.Encode(w) == code
    ensures |before| < |code|
    ensures w < 128 ==> before + [w % 128] == code
    ensures w >= 128 ==> before + [w % 128 + 128] + Varint.Encode(w / 128) == code
  {
    if w >= 128 {
      assert before + ([w % 128 + 128] + Varint.Encode(w / 128)) == before + [w % 128 + 128] + Varint.Encode(w / 128);
    }
  }

  lemma {:induction false} GroupsSnoc(s: seq<byte>, b: byte)
    ensures Varint.Groups(s + [b]) == Varint.Groups(s) + b % 128 * Pow2(7 * |s|)
    ensures Varint.Groups(s) < Pow2(7 * |s|)
  {
    if s == [] {
      assert (s + [b])[1..] == [];
    } else {
      assert (s + [b])[1..] == s[1..] + [b];
      GroupsSnoc(s[1..], b);
      Pow2Step7(7 * |s[1..]|);
      var p := Pow2(7 * |s[1..]|);
      assert Pow2(7 * |s|) == 128 * p;
      assert b % 128 * (128 * p) == 128 * (b % 128 * p);
    }
  }

  /** pb_istream_t over a buffer that is only read: `bytesLeft` bytes of `source` from `state` on. */
  class IStream {
    const source: seq<byte>
    var state: nat
    var bytesLeft: nat

    ghost predicate Valid()
      reads this
    {
      state + bytesLeft <= |source|
    }

    /** The bytes still to be read. */
    function Remaining(): (s: seq<byte>)
      requires Valid()
      reads this
      ensures |s| == bytesLeft
    {
      source[state..state + bytesLeft]
    }

    /** The position just past the last byte this stream may read. */
    function End(): nat
      reads this
    {
      state + bytesLeft
    }

    /** pb_istream_from_buffer, and the copy made by pb_make_string_substream. */
    constructor (source: seq<byte>, start: nat, size: nat)
      requires start + size <= |source|
      ensures Valid() && this.source == source && state == start && bytesLeft == size
    {
      this.source, this.state, this.bytesLeft := source, start, size;
    }

    /** pb_read; a null destination discards the bytes. */
    method Read(count: nat) returns (ok: bool, data: seq<byte>)
      requires Valid()
      modifies this
      ensures Valid() && End() == old(End()) && ok == (count <= old(bytesLeft))
      ensures ok ==> data == old(Remaining())[..count] && Remaining() == old(Remaining())[count..]
      ensures !ok ==> Remaining() == old(Remaining())
    {
      if bytesLeft < count {
        return false, [];
      }
      data := source[state..state + count];
      state := state + count;
      bytesLeft := bytesLeft - count;
      return true, data;
    }

    /** pb_readbyte */
    method ReadByte() returns (ok: bool, b: byte)
      requires Valid()
      modifies this
      ensures Valid() && End() == old(End()) && ok == (old(bytesLeft) != 0)
      ensures ok ==> b == old(Remaining())[0] && Remaining() == old(Remaining())[1..]
      ensures !ok ==> Remaining() == []
    {
      if bytesLeft == 0 {
        return false, 0;
      }
      b := source[state];
      state := state + 1;
      bytesLeft := bytesLeft - 1;
      return true, b;
    }

    /** pb_decode_varint: `bitpos` grows by seven, `result |= group << bitpos` on 64-bit words. */
    method DecodeVarint() returns (ok: bool, dest: nat)
      requires Valid()
      modifies this
      ensures Valid() && End() == old(End())
      ensures ok <==> Varint.Decode64(old(Remaining())).Got?
      ensures ok ==> Varint.Decode64(old(Remaining())) == Got(dest, Remaining())
      ensures !ok ==> Remaining() == Varint.Abandoned(old(Remaining()))
    {
      hide Varint.Span, Varint.Groups, Or, Pow2;
      ghost var s := Remaining();
      ghost var k := 0;
      var bitpos: nat, result: nat := 0, 0;
      var more := true;
      assert U64(Varint.Groups(s[..0])) == 0 by { GroupsEmpty(s[..0]); }
      while more
        invariant Valid() && End() == old(End()) && k <= |s| && k <= 10 && bitpos == 7 * k && Remaining() == s[k..]
        invariant more ==> Varint.Span(s) >= k
        invariant !more ==> k > 0 && Varint.Span(s) == k - 1
        invariant result == U64(Varint.Groups(s[..k]))
        decreases 10 - k, more
      {
        if bitpos >= 64 {
          return false, 0;
        }
        var read, b := ReadByte();
        if !read {
          return false, 0;
        }
        Varint64Step(s, k);
        result := Or(result, U64(b % 128 * Pow2(bitpos)));
        bitpos := bitpos + 7;
        more := b >= 128;
        k := k + 1;
      }
      return true, result;
    }

    /** pb_decode_varint32_eof; `eof` says that there was no first byte. */
    method DecodeVarint32Eof() returns (ok: bool, dest: nat, eof: bool)
      requires Valid()
      modifies this
      ensures Valid() && End() == old(End()) && eof == (old(bytesLeft) == 0)
      ensures ok <==> Varint.Decode32(old(Remaining())).Got?
      ensures ok ==> Varint.Decode32(old(Remaining())) == Got(dest, Remaining())
    {
      hide Or, Pow2, U32;
      ghost var s := Remaining();
      eof := false;
      var read, b := ReadByte();
      if !read {
        return false, 0, true;
      }
      var result: nat := b % 128;
      if b >= 128 {
        var bitpos: nat := 7;
        var more := true;
        while more
          invariant Valid() && End() == old(End())
          invariant more ==> Varint.Decode32(s) == Varint.Decode32From(Remaining(), bitpos, result)
          invariant !more ==> Varint.Decode32(s) == if bitpos == 35 && b / 16 % 8 != 0 then Fail
                                                    else Got(result, Remaining())
          decreases bytesLeft, more
        {
          read, b := ReadByte();
          if !read {
            return false, 0, false;
          }
          if bitpos >= 32 {
            var signExtension := if bitpos < 63 then 0xFF else 0x01;
            if b % 128 != 0 && (result < TWO_31 || b != signExtension) {
              return false, 0, false;
            }
          } else {
            result := Or(result, U32(b % 128 * Pow2(bitpos)));
          }
          bitpos := (bitpos + 7) % 256;
          more := b >= 128;
        }
        if bitpos == 35 && b / 16 % 8 != 0 {
          return false, 0, false;
        }
      }
      return true, result, false;
    }

    method DecodeVarint32() returns (ok: bool, dest: nat)
      requires Valid()
      modifies this
      ensures Valid() && End() == old(End())
      ensures ok <==> Varint.Decode32(old(Remaining())).Got?
      ensures ok ==> Varint.Decode32(old(Remaining())) == Got(dest, Remaining())
    {
      var eof;
      ok, dest, eof := DecodeVarint32Eof();
    }

    /** pb_skip_varint */
    method SkipVarint() returns (ok: bool)
      requires Valid()
      modifies this
      ensures Valid() && End() == old(End())
      ensures ok == (Varint.Span(old(Remaining())) < old(bytesLeft))
      ensures ok ==> Remaining() == old(Remaining())[Varint.Span(old(Remaining())) + 1..]
    {
      ghost var s := Remaining();
      ghost var k := 0;
      var more := true;
      while more
        invariant Valid() && End() == old(End()) && k <= |s| && Remaining() == s[k..]
        invariant more ==> Varint.Span(s) >= k
        invariant !more ==> k > 0 && Varint.Span(s) == k - 1
        decreases bytesLeft, more
      {
        var read, b := Read(1);
        if !read {
          return false;
        }
        SpanStep(s, k);
        more := b[0] >= 128;
        k := k + 1;
      }
      return true;
    }

    /** pb_make_string_substream: the substream is cut off the parent's budget at once, but the
      * parent's read position moves only when the substream is closed. */
    method MakeSubstream() returns (ok: bool, substream: IStream)
      requires Valid()
      modifies this
      ensures Valid() && substream.Valid() && fresh(substream) && substream.source == source
      ensures var d := Varint.Decode32(old(Remaining()));
              ok <==> d.Got? && d.value <= |d.rest|
      ensures !ok ==> End() == old(End())
      ensures ok ==>
                var Got(size, rest) := Varint.Decode32(old(Remaining()));
                && substream.bytesLeft == size && substream.state == state
                && substream.Remaining() == rest[..size]
                && substream.End() + bytesLeft == old(End())
                && source[substream.End()..old(End())] == rest[size..]
    {
      hide Varint.Decode32;
      var size;
      ok, size := DecodeVarint32();
      if !ok || bytesLeft < size {
        substream := new IStream(source, 0, 0);
        return false, substream;
      }
      substream := new IStream(source, state, size);
      bytesLeft := bytesLeft - size;
    }

    /** pb_close_string_substream: skip what the substream left unread and move the parent there. */
    method CloseSubstream(substream: IStream)
      requires Valid() && substream.Valid() && substream != this && substream.source == source
      requires substream.End() + bytesLeft <= |source|
      modifies this, substream
      ensures Valid() && bytesLeft == old(bytesLeft) && state == old(substream.End())
      ensures End() == old(substream.End()) + old(bytesLeft)
    {
      if substream.bytesLeft != 0 {
        var read, skipped := substream.Read(substream.bytesLeft);
      }
      state := substream.state;
    }
  }

  lemma {:induction false} SpanStep(s: seq<byte>, k: nat)
    requires k < |s| && Varint.Span(s) >= k
    ensures s[k] >= 128 ==> Varint.Span(s) >= k + 1
    ensures s[k] < 128 ==> Varint.Span(s) == k
  {
    if k > 0 {
      SpanStep(s[1..], k - 1);
    }
  }

  lemma GroupsEmpty(s: seq<byte>)
    requires s == []
    ensures Varint.Groups(s) == 0
  {
  }

  lemma Varint64Step(s: seq<byte>, k: nat)
    requires k <= 9 && k < |s| && Varint.Span(s) >= k
    ensures Or(U64(Varint.Groups(s[..k])), U64(s[k] % 128 * Pow2(7 * k))) == U64(Varint.Groups(s[..k + 1]))
    ensures s[k] >= 128 ==> Varint.Span(s) >= k + 1
    ensures s[k] < 128 ==> Varint.Span(s) == k
  {
    hide *;
    SpanStep(s, k);
    GroupsSnoc(s[..k], s[k]);
    assert s[..k] + [s[k]] == s[..k + 1];
    OrWord(Varint.Groups(s[..k]), s[k] % 128, k);
  }

  /** `|=` of group k onto the groups before it, on 64-bit words. */
  lemma OrWord(g: nat, b: nat, k: nat)
    requires k <= 9 && b < 128 && g < Pow2(7 * k)
    ensures Or(U64(g), U64(b * Pow2(7 * k))) == U64(g + b * Pow2(7 * k))
  {
    hide Or, Pow2;
    var p := Pow2(7 * k);
    PowBelow63(k);
    if k == 9 {
      LastGroup(g, b);
      OrDisjoint(g, b % 2, 63);
    } else {
      ProductBound(g, b, p);
      OrDisjoint(g, b, 7 * k);
    }
  }

  lemma LastGroup(g: nat, b: nat)
    requires g < 0x8000_0000_0000_0000
    ensures U64(g) == g && U64(b * 0x8000_0000_0000_0000) == b % 2 * 0x8000_0000_0000_0000
    ensures U64(g + b * 0x8000_0000_0000_0000) == g + b % 2 * 0x8000_0000_0000_0000
  {
  }

  lemma ProductBound(g: nat, b: nat, p: nat)
    requires g < p <= 0x100_0000_0000_0000 && b < 128
    ensures U64(g) == g && U64(b * p) == b * p && U64(g + b * p) == g + b * p
  {
    assert g + b * p <= 128 * p <= 0x8000_0000_0000_0000 by {
      assert b * p <= 127 * p;
    }
    WordSmall(g);
    WordSmall(b * p);
    WordSmall(g + b * p);
  }

  lemma WordSmall(n: nat)
    requires n <= 0x8000_0000_0000_0000
    ensures U64(n) == n
  {
  }

  lemma PowBelow63(k: nat)
    requires k <= 9
    ensures k <= 8 ==> Pow2(7 * k) <= 0x100_0000_0000_0000
    ensures k == 9 ==> Pow2(7 * k) == 0x8000_0000_0000_0000
  {
    if k == 9 {
      Varint.Pow2Literals();
    } else {
      Pow2Grows(7 * k, 56);
      Pow2Of56();
    }
  }

  lemma Pow2Of56()
    ensures Pow2(56) == 0x100_0000_0000_0000
  {
    Varint.Pow2Literals();
    Pow2Step7(56);
  }
}
