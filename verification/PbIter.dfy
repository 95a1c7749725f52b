/** pb_field_iter_t: walks a descriptor, keeping the address of the current field's data and the
    number of required fields before it. */
module PbIter {
  import opened Common
  import opened PbSchema
  import opened PbDecode

  const ADDRESS_SIZE: nat := 8

  /** The bytes a field takes in the struct. */
  function MemberSize(f: Field): nat {
    if f.atype == Static && f.htype == Repeated then f.dataSize * f.arraySize
    else if f.atype == Pointer then ADDRESS_SIZE
    else f.dataSize
  }

  /** A further member of a union, which lies where the member before it does. */
  predicate InUnion(fields: seq<Field>, k: nat)
    requires 0 < k < |fields|
  {
    fields[k - 1].htype == Oneof && fields[k].htype == Oneof && fields[k].dataOffset == SIZE_MAX
  }

  /** The descriptor's offsets describe a struct whose members lie at `addr`: each offset is counted
      from the end of the previous member; the members of a union share their address and their
      selector. */
  predicate Laid(fields: seq<Field>, addr: seq<int>) {
    && |addr| == |fields|
    && (fields != [] ==> addr[0] == fields[0].dataOffset)
    && forall k: nat | 0 < k < |fields| ::
         if InUnion(fields, k) then addr[k] == addr[k - 1] && fields[k].sizeOffset == fields[k - 1].sizeOffset
         else fields[k].dataOffset == addr[k] - (addr[k - 1] + MemberSize(fields[k - 1]))
  }

  predicate AllTagged(fields: seq<Field>) {
    forall k: nat | k < |fields| :: fields[k].tag > 0
  }

  predicate Matches(f: Field, tag: nat) {
    f.tag == tag && f.ltype != Extension
  }

  class FieldIter {
    const fields: seq<Field>
    const dest: int
    var pos: nat
    var requiredFieldIndex: nat
    var pData: int
    var pSize: int

    /** The position is a field, or the terminator of an empty descriptor. */
    ghost predicate Valid()
      reads this
    {
      && AllTagged(fields)
      && pos <= |fields| && (pos == |fields| ==> fields == [])
      && requiredFieldIndex == RequiredBefore(fields, pos)
    }

    /** The pointers are those of the current field in a struct whose members lie at `addr`. */
    ghost predicate PointsInto(addr: seq<int>)
      reads this
    {
      pos < |fields| ==>
        |addr| == |fields| && pData == dest + addr[pos] && pSize == pData + fields[pos].sizeOffset
    }

    constructor (fields: seq<Field>, dest: int)
      requires AllTagged(fields)
      ensures this.fields == fields && this.dest == dest && Valid() && pos == 0
      ensures forall addr :: Laid(fields, addr) ==> PointsInto(addr)
    {
      this.fields := fields;
      this.dest := dest;
      pos := 0;
      requiredFieldIndex := 0;
      pData := dest + if fields == [] then 0 else fields[0].dataOffset;
      pSize := dest + if fields == [] then 0 else fields[0].dataOffset + fields[0].sizeOffset;
    }

    /** pb_field_iter_begin. */
    method Begin() returns (ok: bool)
      requires AllTagged(fields)
      modifies this
      ensures Valid() && pos == 0 && (ok <==> fields != [])
      ensures forall addr :: Laid(fields, addr) ==> PointsInto(addr)
    {
      pos := 0;
      requiredFieldIndex := 0;
      pData := dest + if fields == [] then 0 else fields[0].dataOffset;
      pSize := pData + if fields == [] then 0 else fields[0].sizeOffset;
      return fields != [];
    }

    /** pb_field_iter_next: the next field, or false when it wraps back to the first. Whatever the
        position, the pointers end up at the field's true address. */
    method Next() returns (more: bool)
      requires Valid()
      modifies this
      ensures Valid() && (more <==> old(pos) + 1 < |fields|)
      ensures pos == if more then old(pos) + 1 else 0
      ensures forall addr :: Laid(fields, addr) && old(PointsInto(addr)) ==> PointsInto(addr)
    {
      if pos == |fields| {
        return false;
      }
      var prev := fields[pos];
      pos := pos + 1;
      if pos == |fields| {
        var _ := Begin();
        return false;
      }
      var prevSize: nat := prev.dataSize;
      if prev.htype == Oneof && fields[pos].htype == Oneof && fields[pos].dataOffset == SIZE_MAX {
        return true;
      } else if prev.atype == Static && prev.htype == Repeated {
        prevSize := prevSize * prev.arraySize;
      } else if prev.atype == Pointer {
        prevSize := ADDRESS_SIZE;
      }
      if prev.htype == Required {
        requiredFieldIndex := requiredFieldIndex + 1;
      }
      pData := pData + prevSize + fields[pos].dataOffset;
      pSize := pData + fields[pos].sizeOffset;
      return true;
    }

    /** pb_field_iter_find: searches from the current field on, once around. It succeeds exactly when
        a field that is not an extension has the tag; the terminator of an empty descriptor counts
        as a field with tag 0. Otherwise it is back where it was. */
    method Find(tag: nat) returns (found: bool)
      requires Valid()
      modifies this
      ensures Valid()
      ensures found <==> (fields == [] && tag == 0) || exists i: nat :: i < |fields| && Matches(fields[i], tag)
      ensures found && fields != [] ==> Matches(fields[pos], tag)
      ensures !found ==> pos == old(pos)
      ensures forall addr :: Laid(fields, addr) && old(PointsInto(addr)) ==> PointsInto(addr)
    {
      hide RequiredBefore, Laid;
      var start := pos;
      ghost var steps: nat := 0;
      while true
        invariant Valid() && (fields == [] ==> steps == 0)
        invariant fields != [] ==> steps < |fields|
        invariant pos == if start + steps < |fields| || fields == [] then start + steps else start + steps - |fields|
        invariant forall i: nat | Visited(start, steps, i) :: i < |fields| ==> !Matches(fields[i], tag)
        invariant forall addr :: Laid(fields, addr) && old(PointsInto(addr)) ==> PointsInto(addr)
        decreases |fields| - steps
      {
        if pos == |fields| {
          return tag == 0;
        }
        if fields[pos].tag == tag && fields[pos].ltype != Extension {
          return true;
        }
        var _ := Next();
        steps := steps + 1;
        if pos == start {
          return false;
        }
      }
    }

    /** Field `i` is among the first `steps` fields from `start` on, wrapping around. */
    ghost predicate Visited(start: nat, steps: nat, i: nat) {
      start <= i < start + steps || i + |fields| < start + steps
    }
  }
}
