/** GetIndexDifference, index by index: what cancels and what is left. */
module IndexDifference {
  import opened GepAlias

  predicate Is(x: Index, v: nat, ext: Extension) { x.v == v && x.ext == ext }

  /** The scale that the indices of one value have together. */
  function Net(ix: seq<Index>, v: nat, ext: Extension): int {
    if ix == [] then 0 else (if Is(ix[0], v, ext) then ix[0].scale else 0) + Net(ix[1..], v, ext)
  }

  /** The indices of values that may differ between the two pointers. */
  function Loose(ix: seq<Index>, stable: set<nat>): seq<Index> {
    if ix == [] then [] else (if ix[0].v in stable then [] else [ix[0]]) + Loose(ix[1..], stable)
  }

  function Negated(ix: seq<Index>): seq<Index> {
    if ix == [] then [] else Negated(ix[..|ix| - 1]) + [ix[|ix| - 1].(scale := Wrap(-ix[|ix| - 1].scale))]
  }

  ghost predicate Absent(ix: seq<Index>, v: nat, ext: Extension) { forall i :: 0 <= i < |ix| ==> !Is(ix[i], v, ext) }

  /** Stable values come once each. */
  ghost predicate OnceEach(ix: seq<Index>, stable: set<nat>) {
    forall i, j :: 0 <= i < j < |ix| && ix[i].v in stable ==> !Is(ix[j], ix[i].v, ix[i].ext)
  }

  lemma OnceFront(ix: seq<Index>, stable: set<nat>)
    requires ix != []
    ensures OnceEach(ix, stable) <==>
      OnceEach(ix[1..], stable) && (ix[0].v in stable ==> Absent(ix[1..], ix[0].v, ix[0].ext))
  {
    var rest := ix[1..];
    if OnceEach(rest, stable) && (ix[0].v in stable ==> Absent(rest, ix[0].v, ix[0].ext)) {
      forall i, j | 0 <= i < j < |ix| && ix[i].v in stable ensures !Is(ix[j], ix[i].v, ix[i].ext) {
        assert ix[j] == rest[j - 1];
        if i > 0 { assert ix[i] == rest[i - 1]; }
      }
    }
  }

  lemma {:induction false} AbsentNet(ix: seq<Index>, v: nat, ext: Extension)
    requires Absent(ix, v, ext)
    ensures Net(ix, v, ext) == 0
  {
    if ix != [] {
      assert forall i :: 0 <= i < |ix| - 1 ==> ix[1..][i] == ix[i + 1];
      AbsentNet(ix[1..], v, ext);
    }
  }

  lemma {:induction false} SubtractAbsent(dest: seq<Index>, e: Index, stable: set<nat>, v: nat, ext: Extension)
    requires Absent(dest, v, ext) && !Is(e, v, ext)
    ensures Absent(Subtract(dest, e, stable), v, ext)
  {
    hide Wrap;
    if dest != [] && !Same(stable, dest[0], e) {
      SubtractAbsent(dest[1..], e, stable, v, ext);
    }
  }

  lemma {:induction false} SubtractOnce(dest: seq<Index>, e: Index, stable: set<nat>)
    requires OnceEach(dest, stable)
    ensures OnceEach(Subtract(dest, e, stable), stable)
  {
    hide Wrap, OnceEach;
    var d := Subtract(dest, e, stable);
    if dest == [] {
      ShortOnce(d, stable);
    } else {
      OnceFront(dest, stable);
      if Same(stable, dest[0], e) {
        if dest[0].scale != e.scale {
          assert d[1..] == dest[1..];
          OnceFront(d, stable);
        } else {
          assert d == dest[1..];
        }
      } else {
        SubtractOnce(dest[1..], e, stable);
        if dest[0].v in stable { SubtractAbsent(dest[1..], e, stable, dest[0].v, dest[0].ext); }
        assert d[1..] == Subtract(dest[1..], e, stable);
        OnceFront(d, stable);
      }
    }
  }

  lemma ShortOnce(ix: seq<Index>, stable: set<nat>)
    requires |ix| <= 1
    ensures OnceEach(ix, stable)
  {}

  /** A stable index is subtracted from the one of its value, and from no other. */
  lemma {:induction false} SubtractNet(dest: seq<Index>, e: Index, stable: set<nat>, v: nat, ext: Extension)
    requires OnceEach(dest, stable) && ScalesOK(dest) && IsInt64(e.scale) && v in stable
    ensures Net(Subtract(dest, e, stable), v, ext) ==
      if Is(e, v, ext) then Wrap(Net(dest, v, ext) - e.scale) else Net(dest, v, ext)
  {
    hide OnceEach;
    if dest == [] {
    } else {
      OnceFront(dest, stable);
      if Same(stable, dest[0], e) {
        SubtractFound(dest, e, stable, v, ext);
      } else {
        hide Wrap;
        SubtractNet(dest[1..], e, stable, v, ext);
        NetCons(dest[0], Subtract(dest[1..], e, stable), v, ext);
      }
    }
  }

  lemma SubtractFound(dest: seq<Index>, e: Index, stable: set<nat>, v: nat, ext: Extension)
    requires dest != [] && Same(stable, dest[0], e) && Absent(dest[1..], dest[0].v, dest[0].ext)
    requires IsInt64(dest[0].scale) && IsInt64(e.scale)
    ensures Net(Subtract(dest, e, stable), v, ext) ==
      if Is(e, v, ext) then Wrap(Net(dest, v, ext) - e.scale) else Net(dest, v, ext)
  {
    hide Wrap, Net;
    var rest := dest[1..];
    AbsentNet(rest, dest[0].v, dest[0].ext);
    NetCons(dest[0], rest, v, ext);
    NetCons(dest[0].(scale := Wrap(dest[0].scale - e.scale)), rest, v, ext);
    WrapSame(0);
    assert [dest[0]] + rest == dest && [] + rest == rest;
  }

  lemma NetCons(x: Index, ix: seq<Index>, v: nat, ext: Extension)
    ensures Net([x] + ix, v, ext) == (if Is(x, v, ext) then x.scale else 0) + Net(ix, v, ext)
  {
    assert ([x] + ix)[1..] == ix;
  }

  /** An index that is not stable stays, and one of the second pointer is added, negated. */
  lemma {:induction false} SubtractLoose(dest: seq<Index>, e: Index, stable: set<nat>)
    requires e.scale != 0
    ensures Loose(Subtract(dest, e, stable), stable) ==
      Loose(dest, stable) + (if e.v in stable then [] else [e.(scale := Wrap(-e.scale))])
  {
    hide Wrap, Loose;
    LooseNothing(stable);
    var left: seq<Index> := if e.v in stable then [] else [e.(scale := Wrap(-e.scale))];
    if dest == [] {
      LooseCons(e.(scale := Wrap(-e.scale)), [], stable);
      assert [e.(scale := Wrap(-e.scale))] + [] == [e.(scale := Wrap(-e.scale))] && [] + left == left;
    } else {
      var rest := dest[1..];
      LooseCons(dest[0], rest, stable);
      assert [dest[0]] + rest == dest;
      if Same(stable, dest[0], e) {
        LooseCons(dest[0].(scale := Wrap(dest[0].scale - e.scale)), rest, stable);
        assert [] + rest == rest && [] + Loose(rest, stable) == Loose(rest, stable) == Loose(rest, stable) + [];
      } else {
        SubtractLoose(rest, e, stable);
        LooseCons(dest[0], Subtract(rest, e, stable), stable);
      }
    }
  }

  lemma LooseCons(x: Index, ix: seq<Index>, stable: set<nat>)
    ensures Loose([x] + ix, stable) == (if x.v in stable then [] else [x]) + Loose(ix, stable)
  {
    assert ([x] + ix)[1..] == ix;
  }

  lemma LooseNothing(stable: set<nat>)
    ensures Loose([], stable) == []
  {}

  lemma {:induction false} NetLast(ix: seq<Index>, x: Index, v: nat, ext: Extension)
    ensures Net(ix + [x], v, ext) == Net(ix, v, ext) + if Is(x, v, ext) then x.scale else 0
  {
    if ix == [] {
      assert [] + [x] == [x];
    } else {
      NetLast(ix[1..], x, v, ext);
      assert (ix + [x])[1..] == ix[1..] + [x];
    }
  }

  lemma {:induction false} LooseLast(ix: seq<Index>, x: Index, stable: set<nat>)
    ensures Loose(ix + [x], stable) == Loose(ix, stable) + if x.v in stable then [] else [x]
  {
    if ix == [] {
      assert [] + [x] == [x];
    } else {
      LooseLast(ix[1..], x, stable);
      assert (ix + [x])[1..] == ix[1..] + [x];
    }
  }

  lemma NegatedLast(ix: seq<Index>, x: Index)
    ensures Negated(ix + [x]) == Negated(ix) + [x.(scale := Wrap(-x.scale))]
  {
    assert (ix + [x])[..|ix|] == ix;
  }

  lemma WrapAgain(x: int, y: int)
    ensures Wrap(Wrap(x) - y) == Wrap(x - y)
  {}

  lemma WrapSame(x: int)
    requires IsInt64(x)
    ensures Wrap(x) == x
  {}

  lemma {:induction false} NetFits(ix: seq<Index>, stable: set<nat>, v: nat, ext: Extension)
    requires OnceEach(ix, stable) && ScalesOK(ix) && v in stable
    ensures IsInt64(Net(ix, v, ext))
  {
    hide OnceEach;
    if ix != [] {
      OnceFront(ix, stable);
      NetFits(ix[1..], stable, v, ext);
      if Is(ix[0], v, ext) { AbsentNet(ix[1..], v, ext); }
    }
  }

  /** The difference has each stable value once, with the difference of the net scales if that is not zero; all other
      indices are there side by side, those of the second pointer negated. */
  lemma {:induction false} DifferenceExact(dest: seq<Index>, src: seq<Index>, stable: set<nat>)
    requires OnceEach(dest, stable) && ScalesOK(dest) && ScalesOK(src)
    ensures OnceEach(Difference(dest, src, stable), stable) && ScalesOK(Difference(dest, src, stable))
    ensures forall v, ext :: v in stable ==>
      Net(Difference(dest, src, stable), v, ext) == Wrap(Net(dest, v, ext) - Net(src, v, ext))
    ensures Loose(Difference(dest, src, stable), stable) == Loose(dest, stable) + Negated(Loose(src, stable))
    decreases |src|
  {
    hide Wrap, Subtract, OnceEach, Net, Loose, Negated, ScalesOK;
    DifferenceScales(dest, src, stable);
    if src == [] {
      NothingSubtracted(dest, stable);
    } else {
      var k := |src| - 1;
      var front, e := src[..k], src[k];
      LastScale(src);
      DifferenceExact(dest, front, stable);
      var d := Difference(dest, front, stable);
      SubtractOnce(d, e, stable);
      SubtractLoose(d, e, stable);
      assert src == front + [e];
      LooseLast(front, e, stable);
      NegatedLast(Loose(front, stable), e);
      assert Loose(front, stable) + [] == Loose(front, stable);
      assert Loose(d, stable) + [] == Loose(d, stable);
      forall v, ext | v in stable
        ensures Net(Subtract(d, e, stable), v, ext) == Wrap(Net(dest, v, ext) - Net(src, v, ext))
      {
        SubtractNet(d, e, stable, v, ext);
        NetLast(front, e, v, ext);
        WrapAgain(Net(dest, v, ext) - Net(front, v, ext), e.scale);
      }
    }
  }

  lemma LastScale(src: seq<Index>)
    requires ScalesOK(src) && src != []
    ensures var k := |src| - 1; ScalesOK(src[..k]) && IsInt64(src[k].scale) && src[k].scale != 0
  {}

  lemma NothingSubtracted(dest: seq<Index>, stable: set<nat>)
    requires OnceEach(dest, stable) && ScalesOK(dest)
    ensures forall v, ext :: v in stable ==> Net(dest, v, ext) == Wrap(Net(dest, v, ext) - Net([], v, ext))
    ensures Loose(dest, stable) == Loose(dest, stable) + Negated(Loose([], stable))
  {
    hide Wrap, OnceEach, ScalesOK;
    forall v, ext | v in stable ensures Net(dest, v, ext) == Wrap(Net(dest, v, ext) - Net([], v, ext)) {
      NetFits(dest, stable, v, ext);
      WrapSame(Net(dest, v, ext));
    }
  }

  lemma FirstCounts(ix: seq<Index>, stable: set<nat>)
    requires OnceEach(ix, stable) && ScalesOK(ix) && ix != []
    ensures Loose(ix, stable) != [] || (ix[0].v in stable && Net(ix, ix[0].v, ix[0].ext) != 0)
  {
    hide OnceEach;
    OnceFront(ix, stable);
    if ix[0].v in stable { AbsentNet(ix[1..], ix[0].v, ix[0].ext); }
  }

  /** Nothing is left of the indices if and only if all are stable and have the same net scales in both pointers. */
  lemma CancelsExactly(dest: seq<Index>, src: seq<Index>, stable: set<nat>)
    requires OnceEach(dest, stable) && ScalesOK(dest) && ScalesOK(src)
    ensures Difference(dest, src, stable) == [] <==>
      Loose(dest, stable) == [] && Loose(src, stable) == [] &&
      forall v, ext :: v in stable ==> Wrap(Net(dest, v, ext) - Net(src, v, ext)) == 0
  {
    hide Wrap, OnceEach, ScalesOK, Difference, Net, Loose, Negated;
    DifferenceExact(dest, src, stable);
    var d := Difference(dest, src, stable);
    NegatedSize(Loose(src, stable));
    LooseNothing(stable);
    if d == [] {
      forall v, ext | v in stable ensures Wrap(Net(dest, v, ext) - Net(src, v, ext)) == 0 { AbsentNet([], v, ext); }
    } else {
      FirstCounts(d, stable);
      if Loose(d, stable) == [] {
        assert Wrap(Net(dest, d[0].v, d[0].ext) - Net(src, d[0].v, d[0].ext)) == Net(d, d[0].v, d[0].ext);
      }
    }
  }

  lemma NegatedSize(ix: seq<Index>)
    ensures |Negated(ix)| == |ix|
  {}

  /** So two pointers with the same stable indices are at a constant distance. */
  lemma SameIndicesCancel(ix: seq<Index>, stable: set<nat>)
    requires Unique(ix) && ScalesOK(ix) && forall i :: 0 <= i < |ix| ==> ix[i].v in stable
    ensures Difference(ix, ix, stable) == []
  {
    hide Wrap, ScalesOK, Difference;
    NoLoose(ix, stable);
    WrapSame(0);
    CancelsExactly(ix, ix, stable);
  }

  lemma {:induction false} NoLoose(ix: seq<Index>, stable: set<nat>)
    requires forall i :: 0 <= i < |ix| ==> ix[i].v in stable
    ensures Loose(ix, stable) == []
  {
    if ix != [] { NoLoose(ix[1..], stable); }
  }
}
