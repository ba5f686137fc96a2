/** The wrapping field iterator (nanopb pb_common.c). */
module PbFieldIters {
  import opened PbFields

  /** Bytes from a field's data to its end. */
  function Extent(f: Field): nat {
    if f.atype == Static && f.htype == Repeated then f.dataSize * f.arraySize
    else if f.atype == Pointer then SIZEOF_PTR
    else f.dataSize
  }

  /** Where field i is, from the start of the structure. */
  function DataAddress(fields: seq<Field>, i: nat): nat
    requires i <= |fields|
  {
    if i == |fields| then 0
    else if i == 0 then fields[0].dataOffset
    else if SameUnion(fields[i - 1], fields[i]) then DataAddress(fields, i - 1)
    else DataAddress(fields, i - 1) + Extent(fields[i - 1]) + fields[i].dataOffset
  }

  /** Where its has flag, count or union selector is. */
  function SizeAddress(fields: seq<Field>, i: nat): int
    requires i <= |fields|
  {
    if i == |fields| then 0
    else if i > 0 && SameUnion(fields[i - 1], fields[i]) then SizeAddress(fields, i - 1)
    else DataAddress(fields, i) + fields[i].sizeOffset
  }

  /** A member of the structure: where it is, its size, and where its has flag, count or selector is. */
  datatype Place = Place(data: nat, size: nat, flag: int)

  /** The descriptor is what the macros make of the structure: each place relative to the end of the member before it,
      members of one union in one place. */
  ghost predicate Describes(fields: seq<Field>, places: seq<Place>) {
    |fields| == |places|
    && forall i :: 0 <= i < |fields| ==>
         var (f, p) := (fields[i], places[i]);
         && p.data < SIZE_MAX
         && (f.atype == Pointer ==> p.size == 8)
         && (f.atype != Pointer ==> p.size == if f.atype == Static && f.htype == Repeated then f.dataSize * f.arraySize
                                              else f.dataSize)
         && if i > 0 && f.htype == Oneof && fields[i - 1].htype == Oneof && f.dataOffset == 0xFFFF_FFFF
            then p.data == places[i - 1].data && p.flag == places[i - 1].flag
            else f.sizeOffset == p.flag - p.data
                 && p.data == f.dataOffset + if i == 0 then 0 else places[i - 1].data + places[i - 1].size
  }

  /** Walking over such a descriptor comes to the members of the structure. */
  lemma {:induction false} AtItsPlace(fields: seq<Field>, places: seq<Place>, i: nat)
    requires Describes(fields, places) && i < |fields|
    ensures DataAddress(fields, i) == places[i].data && SizeAddress(fields, i) == places[i].flag
  {
    if i > 0 {
      AtItsPlace(fields, places, i - 1);
    }
  }

  predicate Matches(f: Field, tag: nat) { f.tag == tag && f.ltype != LExtension }

  /** k steps past i, going round. */
  function Around(n: nat, i: nat, k: nat): nat
    requires i < n && k <= n
  {
    if i + k < n then i + k else i + k - n
  }

  class FieldIter {
    const start: seq<Field>
    const dest: int
    var pos: nat
    var requiredFieldIndex: nat
    var pData: int
    var pSize: int

    /** Everything is determined by pos. */
    ghost predicate Valid()
      reads this
    {
      && TagsOk(start) && pos <= |start| && (pos == |start| ==> start == [])
      && requiredFieldIndex == RequiredIndex(start, pos)
      && pData == dest + DataAddress(start, pos) && pSize == dest + SizeAddress(start, pos)
    }

    /** The field at pos, or the terminator. */
    function Current(): Field
      reads this
    {
      if pos < |start| then start[pos] else LAST_FIELD
    }

    constructor (fields: seq<Field>, dest: int)
      requires TagsOk(fields)
      ensures Valid() && start == fields && this.dest == dest && pos == 0
    {
      start, this.dest := fields, dest;
      pos, requiredFieldIndex, pData, pSize := 0, 0, 0, 0;
      new;
      var _ := Begin();
    }

    method Begin() returns (some: bool)
      requires TagsOk(start)
      modifies this
      ensures Valid() && pos == 0 && some == (start != [])
    {
      pos, requiredFieldIndex := 0, 0;
      pData := dest + Current().dataOffset;
      pSize := pData + Current().sizeOffset;
      some := Current().tag != 0;
    }

    /** One step on, or back to the first field. */
    method Next() returns (more: bool)
      requires Valid()
      modifies this
      ensures Valid() && more == (old(pos) + 1 < |start|) && pos == if more then old(pos) + 1 else 0
    {
      var prev := Current();
      if prev.tag == 0 {
        return false;
      }
      pos := pos + 1;
      if Current().tag == 0 {
        var _ := Begin();
        return false;
      }
      var prevSize := prev.dataSize;
      if prev.htype == Oneof && Current().htype == Oneof && Current().dataOffset == SIZE_MAX {
        return true;
      } else if prev.atype == Static && prev.htype == Repeated {
        prevSize := prevSize * prev.arraySize;
      } else if prev.atype == Pointer {
        prevSize := SIZEOF_PTR;
      }
      if prev.htype == Required {
        requiredFieldIndex := requiredFieldIndex + 1;
      }
      pData := pData + prevSize + Current().dataOffset;
      pSize := pData + Current().sizeOffset;
      more := true;
    }

    /** Finds the next field with the tag, starting with the current one and going round; when there is none, comes
        back to where it was. In a message without fields, the terminator passes for a field with tag 0. */
    method Find(tag: nat) returns (found: bool)
      requires Valid()
      modifies this
      ensures Valid()
      ensures found <==> (exists i :: 0 <= i < |start| && Matches(start[i], tag)) || (start == [] && tag == 0)
      ensures found ==> Matches(Current(), tag)
      ensures found && start != [] ==>
                exists k :: 0 <= k < |start| && pos == Around(|start|, old(pos), k)
                            && forall j :: 0 <= j < k ==> !Matches(start[Around(|start|, old(pos), j)], tag)
      ensures !found ==> pos == old(pos)
    {
      var from, n := pos, |start|;
      ghost var k: nat := 0;
      while true
        invariant Valid() && (n == 0 ==> pos == from)
        invariant n > 0 ==> k < n && pos == Around(n, from, k)
                            && forall j :: 0 <= j < k ==> !Matches(start[Around(n, from, j)], tag)
        decreases n - k
      {
        if Current().tag == tag && Current().ltype != LExtension {
          found := true;
          return;
        }
        var _ := Next();
        if n > 0 {
          assert !Matches(start[Around(n, from, k)], tag);
          k := k + 1;
        }
        if pos == from {
          AllVisited(n, from, k);
          forall i | 0 <= i < n ensures !Matches(start[i], tag) {
            assert Around(n, from, if i >= from then i - from else i + n - from) == i;
          }
          found := false;
          return;
        }
      }
    }
  }

  /** Coming back to where it began takes a whole round. */
  lemma AllVisited(n: nat, i: nat, k: nat)
    requires n > 0 ==> i < n && 0 < k <= n && Around(n, i, k) == i
    ensures n > 0 ==> k == n
  {
  }

  /** With distinct tags, the field found does not depend on where the search began. */
  lemma OnlyMatch(fields: seq<Field>, i: nat, j: nat, tag: nat)
    requires TagsDistinct(fields) && i < |fields| && j < |fields| && Matches(fields[i], tag) && Matches(fields[j], tag)
    ensures i == j
  {
  }
}
