/** aliasSameBasePointerGEPs: two accesses to different fields of structs reached through arrays only. */
module StructAlias {
  import opened Arith
  import opened BranchScale
  import opened Options
  import opened GepAlias

  datatype Ty = Scalar(size: nat) | Array(elem: Ty, count: nat) | Struct(offsets: seq<nat>, size: nat)

  function AllocSize(ty: Ty): nat {
    match ty
    case Scalar(size) => size
    case Array(elem, count) => Prod(count, AllocSize(elem))
    case Struct(_, size) => size
  }

  /** A constant operand; the same width and value make the same constant. */
  datatype Constant = Constant(width: nat, value: nat)

  /** A getelementptr: its source element type, the run-time values of all indices but the last, and the last
      index if that is a constant. */
  datatype Gep = Gep(source: Ty, indices: nat, last: Maybe<Constant>)

  /** The type reached through n array types. */
  function Through(ty: Ty, n: nat): Maybe<Ty> {
    if n == 0 then Just(ty) else if ty.Array? then Through(ty.elem, n - 1) else Nothing
  }

  /** Bytes from the array's start to the element that the indices pick. */
  function Inside(ty: Ty, idx: seq<int>): int
    requires Through(ty, |idx|).Just?
  {
    if idx == [] then 0 else idx[0] * AllocSize(ty.elem) + Inside(ty.elem, idx[1..])
  }

  /** Bytes from the pointer operand to the struct; the first index steps over whole source elements. */
  function StructStart(ty: Ty, idx: seq<int>): int
    requires idx != [] && Through(ty, |idx| - 1).Just?
  {
    idx[0] * AllocSize(ty) + Inside(ty, idx[1..])
  }

  lemma {:induction false} SizeMultiple(ty: Ty, n: nat)
    requires Through(ty, n).Just?
    ensures Multiple(AllocSize(ty), AllocSize(Through(ty, n).value))
  {
    if n == 0 {
      assert AllocSize(ty) == 1 * AllocSize(ty);
    } else {
      SizeMultiple(ty.elem, n - 1);
      MultipleTimes(AllocSize(ty.elem), ty.count, AllocSize(Through(ty, n).value));
      assert AllocSize(ty.elem) * ty.count == ty.count * AllocSize(ty.elem);
    }
  }

  lemma {:induction false} InsideMultiple(ty: Ty, idx: seq<int>)
    requires Through(ty, |idx|).Just?
    ensures Multiple(Inside(ty, idx), AllocSize(Through(ty, |idx|).value))
  {
    var p := AllocSize(Through(ty, |idx|).value);
    if idx == [] {
      assert 0 == 0 * p;
    } else {
      InsideMultiple(ty.elem, idx[1..]);
      SizeMultiple(ty.elem, |idx| - 1);
      MultipleTimes(AllocSize(ty.elem), idx[0], p);
      assert AllocSize(ty.elem) * idx[0] == idx[0] * AllocSize(ty.elem);
      MultipleSum(idx[0] * AllocSize(ty.elem), Inside(ty.elem, idx[1..]), p);
    }
  }

  /** Whatever the indices, the two structs coincide or lie whole structs apart. */
  lemma StartsApart(ty: Ty, idx1: seq<int>, idx2: seq<int>)
    requires idx1 != [] && |idx2| == |idx1| && Through(ty, |idx1| - 1).Just?
    ensures Multiple(StructStart(ty, idx2) - StructStart(ty, idx1), AllocSize(Through(ty, |idx1| - 1).value))
  {
    hide Multiple;
    var p := AllocSize(Through(ty, |idx1| - 1).value);
    StartMultiple(ty, idx1);
    StartMultiple(ty, idx2);
    MultipleSum(StructStart(ty, idx2), StructStart(ty, idx1), p);
  }

  lemma StartMultiple(ty: Ty, idx: seq<int>)
    requires idx != [] && Through(ty, |idx| - 1).Just?
    ensures Multiple(StructStart(ty, idx), AllocSize(Through(ty, |idx| - 1).value))
  {
    hide Multiple;
    var p := AllocSize(Through(ty, |idx| - 1).value);
    InsideMultiple(ty, idx[1..]);
    SizeMultiple(ty, |idx| - 1);
    MultipleTimes(AllocSize(ty), idx[0], p);
    assert AllocSize(ty) * idx[0] == idx[0] * AllocSize(ty);
    MultipleSum(idx[0] * AllocSize(ty), Inside(ty, idx[1..]), p);
  }

  // ---- two fields -------------------------------------------------------------------------------------

  /** Byte ranges on an address line that does not wrap. */
  ghost predicate Disjoint(a: int, size1: nat, b: int, size2: nat) { a + size1 <= b || b + size2 <= a }

  /** The fields are disjoint however many structs apart they are. */
  ghost predicate FieldsDisjoint(structSize: nat, off1: nat, size1: nat, off2: nat, size2: nat) {
    forall n: int {:trigger Structs(n, structSize)} :: Disjoint(off1, size1, off2 + Structs(n, structSize), size2)
  }

  /** n whole structs. */
  function Structs(n: int, p: nat): int { n * p }

  /** The test as written, in wrapping 64-bit arithmetic. */
  predicate EltsDontOverlap(structSize: nat, off1: nat, size1: nat, off2: nat, size2: nat) {
    off1 < off2 && (off1 + size1) % B64 <= off2 &&
    ((off2 + size2) % B64 <= structSize || (off2 + size2 - structSize) % B64 <= off1)
  }

  /** The test without wrapping. */
  ghost predicate Room(structSize: nat, off1: nat, size1: nat, off2: nat, size2: nat) {
    off1 < off2 && off1 + size1 <= off2 && off2 + size2 <= structSize + off1
  }

  /** It takes room between the fields, in one struct and round to the next, and that is enough. */
  lemma RoomExact(structSize: nat, off1: nat, size1: nat, off2: nat, size2: nat)
    requires off1 < off2 < structSize && size1 > 0 && size2 > 0
    ensures Room(structSize, off1, size1, off2, size2) <==> FieldsDisjoint(structSize, off1, size1, off2, size2)
  {
    if Room(structSize, off1, size1, off2, size2) {
      forall n: int ensures Disjoint(off1, size1, off2 + Structs(n, structSize), size2) {
        MulMono(0, n, structSize);
        MulMono(n, -1, structSize);
      }
    }
    if FieldsDisjoint(structSize, off1, size1, off2, size2) {
      assert Structs(0, structSize) == 0 && Structs(-1, structSize) + structSize == 0;
      assert Disjoint(off1, size1, off2 + Structs(0, structSize), size2);
      assert Disjoint(off1, size1, off2 + Structs(-1, structSize), size2);
    }
  }

  /** When the wrapping test passes it is right exactly if the lower field's end fits in 64 bits, and the
      higher one's does too or is within one struct of the lower field. */
  lemma WrappingTestExact(structSize: nat, off1: nat, size1: nat, off2: nat, size2: nat)
    requires off1 < off2 < structSize < B64 && 0 < size1 < B64 && 0 < size2 < B64
    requires EltsDontOverlap(structSize, off1, size1, off2, size2)
    ensures FieldsDisjoint(structSize, off1, size1, off2, size2) <==>
      off1 + size1 < B64 && (off2 + size2 < B64 || off2 + size2 <= structSize + off1)
  {
    hide FieldsDisjoint;
    RoomExact(structSize, off1, size1, off2, size2);
  }

  /** Without wrapping the test misses nothing: it passes whenever the fields are disjoint. */
  lemma TestComplete(structSize: nat, off1: nat, size1: nat, off2: nat, size2: nat)
    requires off1 < structSize < B64 && off2 < structSize && 0 < size1 < B64 && 0 < size2 < B64
    requires FieldsDisjoint(structSize, off1, size1, off2, size2)
    ensures off1 != off2
    ensures EltsDontOverlap(structSize, off1, size1, off2, size2) || EltsDontOverlap(structSize, off2, size2, off1, size1)
  {
    hide FieldsDisjoint;
    SameStruct(structSize, off1, size1, off2, size2);
    FieldsSwap(structSize, off1, size1, off2, size2);
    if off1 < off2 {
      RoomExact(structSize, off1, size1, off2, size2);
    } else {
      RoomExact(structSize, off2, size2, off1, size1);
    }
  }

  lemma SameStruct(structSize: nat, off1: nat, size1: nat, off2: nat, size2: nat)
    requires FieldsDisjoint(structSize, off1, size1, off2, size2) && size1 > 0 && size2 > 0
    ensures off1 != off2
  {
    assert Structs(0, structSize) == 0;
    assert Disjoint(off1, size1, off2 + Structs(0, structSize), size2);
  }

  lemma FieldsSwap(structSize: nat, off1: nat, size1: nat, off2: nat, size2: nat)
    requires FieldsDisjoint(structSize, off1, size1, off2, size2)
    ensures FieldsDisjoint(structSize, off2, size2, off1, size1)
  {
    forall n: int ensures Disjoint(off2, size2, off1 + Structs(n, structSize), size1) {
      assert Structs(-n, structSize) == -Structs(n, structSize);
      assert Disjoint(off1, size1, off2 + Structs(-n, structSize), size2);
    }
  }

  /** A size so large that the sum wraps: the test passes although the first access covers the second. */
  lemma WrappingTestFails()
    ensures EltsDontOverlap(16, 4, B64 - 4, 8, 4) && !FieldsDisjoint(16, 4, B64 - 4, 8, 4)
  {
    assert Structs(0, 16) == 0;
    assert !Disjoint(4, B64 - 4, 8 + Structs(0, 16), 4);
  }

  // ---- the rule ------------------------------------------------------------------------------------------

  /** Same number of indices, sizes known, different constant field numbers, nothing but arrays on the way to
      a struct; then the fields decide. */
  method AliasSameBasePointerGeps(gep1: Gep, size1: Maybe<nat>, gep2: Gep, size2: Maybe<nat>) returns (r: AliasResult)
    requires gep1.source == gep2.source && (size1.Just? ==> size1.value < B64) && (size2.Just? ==> size2.value < B64)
    requires FieldsExist(gep1) && FieldsExist(gep2)
    ensures r == NoAlias <==> DistinctFields(gep1, size1, gep2, size2)
    ensures r == NoAlias || r == MayAlias
  {
    if gep1.indices != gep2.indices || gep1.indices < 2 {
      return MayAlias;
    }
    if size1.Nothing? || size2.Nothing? {
      return MayAlias;
    }
    if gep1.last.Nothing? || gep2.last.Nothing? || gep1.last == gep2.last {
      return MayAlias;
    }
    var ty, i := gep1.source, 1;
    while i != gep1.indices - 1
      invariant 1 <= i <= gep1.indices - 1
      invariant Through(gep1.source, gep1.indices - 2) == Through(ty, gep1.indices - 1 - i)
    {
      if !ty.Array? {
        return MayAlias;
      }
      ty := ty.elem;
      i := i + 1;
    }
    if !ty.Struct? {
      return MayAlias;
    }
    var off1, off2 := ty.offsets[gep1.last.value.value], ty.offsets[gep2.last.value.value];
    if EltsDontOverlap(ty.size, off1, size1.value, off2, size2.value) ||
       EltsDontOverlap(ty.size, off2, size2.value, off1, size1.value) {
      return NoAlias;
    }
    return MayAlias;
  }

  /** The struct that the last index picks a field of, if there is one. */
  function LastStruct(gep: Gep): Maybe<Ty>
    requires gep.indices >= 2
  {
    var ty := Through(gep.source, gep.indices - 2);
    if ty.Just? && ty.value.Struct? then ty else Nothing
  }

  /** Field numbers are those of fields. */
  ghost predicate FieldsExist(gep: Gep) {
    gep.indices >= 2 && LastStruct(gep).Just? && gep.last.Just? ==> gep.last.value.value < |LastStruct(gep).value.offsets|
  }

  ghost predicate DistinctFields(gep1: Gep, size1: Maybe<nat>, gep2: Gep, size2: Maybe<nat>)
    requires gep1.source == gep2.source && FieldsExist(gep1) && FieldsExist(gep2)
  {
    && gep1.indices == gep2.indices && gep1.indices >= 2 && size1.Just? && size2.Just?
    && gep1.last.Just? && gep2.last.Just? && gep1.last != gep2.last && LastStruct(gep1).Just?
    && var st := LastStruct(gep1).value;
       var off1, off2 := st.offsets[gep1.last.value.value], st.offsets[gep2.last.value.value];
       EltsDontOverlap(st.size, off1, size1.value, off2, size2.value) ||
       EltsDontOverlap(st.size, off2, size2.value, off1, size1.value)
  }

  lemma ApartIsDisjoint(structSize: nat, off1: nat, size1: nat, off2: nat, size2: nat, start1: int, start2: int)
    requires FieldsDisjoint(structSize, off1, size1, off2, size2) && Multiple(start2 - start1, structSize)
    ensures Disjoint(start1 + off1, size1, start2 + off2, size2)
  {
    var n: int :| start2 - start1 == n * structSize;
    assert Disjoint(off1, size1, off2 + Structs(n, structSize), size2);
  }

  /** NoAlias from the rule: for all index values the two accesses are disjoint, as long as the accesses end
      within 64 bits and the struct's fields lie inside it. */
  lemma SameBaseNoAlias(gep1: Gep, size1: nat, gep2: Gep, size2: nat, idx1: seq<int>, idx2: seq<int>)
    requires gep1.source == gep2.source && FieldsExist(gep1) && FieldsExist(gep2)
    requires DistinctFields(gep1, Just(size1), gep2, Just(size2)) && size1 > 0 && size2 > 0
    requires |idx1| == gep1.indices - 1 == |idx2|
    requires var st := LastStruct(gep1).value;
      st.size < B64 && (forall i :: 0 <= i < |st.offsets| ==> st.offsets[i] < st.size) &&
      st.offsets[gep1.last.value.value] + size1 < B64 && st.offsets[gep2.last.value.value] + size2 < B64
    ensures var st := LastStruct(gep1).value;
      Disjoint(StructStart(gep1.source, idx1) + st.offsets[gep1.last.value.value], size1,
               StructStart(gep2.source, idx2) + st.offsets[gep2.last.value.value], size2)
  {
    hide FieldsDisjoint, Multiple, Inside, Disjoint;
    var st := LastStruct(gep1).value;
    var off1, off2 := st.offsets[gep1.last.value.value], st.offsets[gep2.last.value.value];
    StartsApart(gep1.source, idx1, idx2);
    if EltsDontOverlap(st.size, off1, size1, off2, size2) {
      WrappingTestExact(st.size, off1, size1, off2, size2);
    } else {
      WrappingTestExact(st.size, off2, size2, off1, size1);
      FieldsSwap(st.size, off2, size2, off1, size1);
    }
    ApartIsDisjoint(st.size, off1, size1, off2, size2, StructStart(gep1.source, idx1), StructStart(gep2.source, idx2));
  }

  /** If addresses may wrap at 2^64 the struct's own size has to pass the modulo test: only its lowest set bit
      keeps elements apart. */
  lemma FieldsWithWrapping(structSize: int, off1: nat, size1: nat, off2: nat, size2: nat)
    requires 0 < structSize && IsInt64(structSize) && size1 > 0 && size2 > 0
    ensures var ix := [Index(0, NotExtended, structSize)];
      ScalesOK(ix) &&
      (ModuloClear(off1 - off2, ix, size1, size2) <==>
       forall n: int {:trigger Structs(n, structSize)} :: !Overlap(off1 - off2 + Structs(n, structSize), size1, size2))
  {
    hide Overlap, ModuloClear;
    var ix := [Index(0, NotExtended, structSize)];
    ModuloExact(off1 - off2, ix, size1, size2);
    forall n: int ensures Sum(ix, [n]) == Structs(n, structSize) {
      SumOne(ix[0], n);
      assert structSize * n == n * structSize;
    }
    if ModuloClear(off1 - off2, ix, size1, size2) {
      forall n: int ensures !Overlap(off1 - off2 + Structs(n, structSize), size1, size2) {
        assert !Overlap(off1 - off2 + Sum(ix, [n]), size1, size2);
      }
    }
    if forall n: int {:trigger Structs(n, structSize)} :: !Overlap(off1 - off2 + Structs(n, structSize), size1, size2) {
      forall vals: seq<int> | |vals| == |ix| ensures !Overlap(off1 - off2 + Sum(ix, vals), size1, size2) {
        assert vals == [vals[0]];
        assert Sum(ix, vals) == Structs(vals[0], structSize);
      }
    }
  }

  /** Twelve-byte structs: the fields never meet on a straight address line, but 2^64 is no multiple of twelve,
      and round the end of the address space they do. */
  lemma TwelveByteStructs()
    ensures EltsDontOverlap(12, 0, 4, 4, 4) && FieldsDisjoint(12, 0, 4, 4, 4)
    ensures Overlap(0 - 4 + Structs(3074457345618258603, 12), 4, 4)
  {
    RoomExact(12, 0, 4, 4, 4);
    assert SharedByte(0 - 4 + Structs(3074457345618258603, 12), 4, 4, 0, 0, 2);
  }
}
