/**
 * The circular field iterator and the bit mask of required fields (pb_common.c; the end of
 * pb_decode_noinit in pb_decode.c).
 */
module Iterator {
  import opened Bytes
  import opened Schema

  const PB_SIZE_MAX: nat := 0xFFFF_FFFF

  /** Bytes the field takes in the struct: an array entry times the array's size. */
  function Extent(f: Field): nat
  {
    if f.rule.Repeated? then f.size * f.rule.max else f.size
  }

  /** A further member of the union the previous field belongs to, as the iterator tells it. */
  predicate Joined(fields: seq<Field>, i: nat)
    requires i < |fields|
  {
    i > 0 && fields[i - 1].rule.Oneof? && fields[i].rule.Oneof? && fields[i].dataOffset == PB_SIZE_MAX
  }

  /** Where the offsets of the table put field i's data. */
  function DataAt(fields: seq<Field>, i: nat): int
    requires i < |fields|
  {
    if i == 0 then fields[0].dataOffset
    else if Joined(fields, i) then DataAt(fields, i - 1)
    else DataAt(fields, i - 1) + Extent(fields[i - 1]) + fields[i].dataOffset
  }

  /** Where they put its has_ flag, count or which_ selector. */
  function SizeAt(fields: seq<Field>, i: nat): int
    requires i < |fields|
  {
    if Joined(fields, i) then SizeAt(fields, i - 1) else DataAt(fields, i) + fields[i].sizeOffset
  }

  /** What PB_DATAOFFSET_FIRST, _OTHER and _UNION in pb.h put into entry i of the table. */
  predicate Entry(fields: seq<Field>, data: seq<nat>, size: seq<int>, i: nat)
    requires i < |fields| == |data| == |size|
  {
    if i > 0 && fields[i].rule.Oneof? && fields[i].rule == fields[i - 1].rule
    then fields[i].dataOffset == PB_SIZE_MAX && data[i] == data[i - 1] && size[i] == size[i - 1]
    else
      && fields[i].dataOffset == data[i] - (if i == 0 then 0 else data[i - 1] + Extent(fields[i - 1]))
      && fields[i].dataOffset < PB_SIZE_MAX
      && fields[i].sizeOffset == size[i] - data[i]
  }

  /** The table was generated from a struct whose data and size members lie at these offsets. */
  predicate Describes(fields: seq<Field>, data: seq<nat>, size: seq<int>)
  {
    |data| == |size| == |fields| && forall i :: 0 <= i < |fields| ==> Entry(fields, data, size, i)
  }

  /** The iterator's running sums find every member of the struct the table was made from. */
  lemma {:induction false} OffsetsFindMembers(fields: seq<Field>, data: seq<nat>, size: seq<int>, i: nat)
    requires Describes(fields, data, size) && i < |fields|
    ensures DataAt(fields, i) == data[i] && SizeAt(fields, i) == size[i]
  {
    assert Entry(fields, data, size, i);
    if i > 0 {
      OffsetsFindMembers(fields, data, size, i - 1);
    }
  }

  predicate NonZeroTags(fields: seq<Field>)
  {
    forall i :: 0 <= i < |fields| ==> fields[i].tag != 0
  }

  /** pb_field_iter_t. Position |fields| is the table's terminator, whose tag is 0. */
  class FieldIter {
    const fields: seq<Field>
    const destStruct: nat
    var pos: nat
    var requiredFieldIndex: nat
    var pData: int
    var pSize: int

    /** The terminator is only pointed at in an empty table; the data pointers and the count of
      * required fields are those of the position. */
    ghost predicate Valid()
      reads this
    {
      && NonZeroTags(fields)
      && pos <= |fields| && (pos == |fields| ==> fields == [])
      && requiredFieldIndex == RequiredBefore(fields, pos)
      && (pos < |fields| ==>
            pData == destStruct + DataAt(fields, pos) && pSize == destStruct + SizeAt(fields, pos))
    }

    function Tag(i: nat): nat
      requires i <= |fields|
    {
      if i == |fields| then 0 else fields[i].tag
    }

    constructor (fields: seq<Field>, destStruct: nat)
      requires NonZeroTags(fields)
      ensures Valid() && this.fields == fields && this.destStruct == destStruct && pos == 0
    {
      this.fields, this.destStruct := fields, destStruct;
      pos, requiredFieldIndex, pData, pSize := 0, 0, 0, 0;
      new;
      var more := Begin();
    }

    /** pb_field_iter_begin */
    method Begin() returns (more: bool)
      requires NonZeroTags(fields)
      modifies this
      ensures Valid() && pos == 0 && more == (fields != [])
    {
      pos := 0;
      requiredFieldIndex := 0;
      pData := destStruct + if pos == |fields| then 0 else fields[pos].dataOffset;
      pSize := pData + if pos == |fields| then 0 else fields[pos].sizeOffset;
      return Tag(pos) != 0;
    }

    /** pb_field_iter_next */
    method Next() returns (more: bool)
      requires Valid()
      modifies this
      ensures Valid() && more == (old(pos) + 1 < |fields|)
      ensures pos == if more then old(pos) + 1 else 0
    {
      if Tag(pos) == 0 {
        return false;
      }
      var prev := fields[pos];
      pos := pos + 1;
      if Tag(pos) == 0 {
        var begun := Begin();
        return false;
      }
      var prevSize := prev.size;
      if prev.rule.Oneof? && fields[pos].rule.Oneof? && fields[pos].dataOffset == PB_SIZE_MAX {
        return true;
      } else if prev.rule.Repeated? {
        prevSize := prevSize * prev.rule.max;
      }
      if prev.rule.Required? {
        requiredFieldIndex := requiredFieldIndex + 1;
      }
      pData := pData + prevSize + fields[pos].dataOffset;
      pSize := pData + fields[pos].sizeOffset;
      return true;
    }

    /** pb_field_iter_find: once around the table from wherever the iterator stands. */
    method Find(tag: nat) returns (found: bool)
      requires Valid()
      modifies this
      ensures Valid()
      ensures found == if fields == [] then tag == 0 else Schema.Find(fields, tag).Some?
      ensures found ==> Tag(pos) == tag
      ensures found && fields != [] && DistinctTags(fields) ==> Schema.Find(fields, tag) == Some(pos)
      ensures !found ==> pos == old(pos)
    {
      var start := pos;
      ghost var wrapped := false;
      ghost var n := |fields|;
      while true
        invariant Valid() && start == old(pos) && n == |fields|
        invariant !wrapped ==> start <= pos
        invariant wrapped ==> pos < start
        invariant forall j :: 0 <= j < n && (if wrapped then start <= j || j < pos else start <= j < pos) ==> fields[j].tag != tag
        decreases if wrapped then start - pos else n + start - pos
      {
        if Tag(pos) == tag {
          if fields != [] {
            assert fields[pos].tag == tag;
          }
          return true;
        }
        var more := Next();
        if !more { wrapped := true; }
        if pos == start {
          return false;
        }
      }
    }
  }
}
