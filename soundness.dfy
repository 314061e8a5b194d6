/**
 * Why the cast scan is right: a built blob, read in scan order, lists exactly
 * the base subobjects of the type (each labelled with its type's id and its
 * offset) in the order `Ancestry` gives them. So the scan for a target id
 * stops at the first subobject of the target type, and finds nothing for a
 * type that is not an ancestor.
 */
module Soundness {
  import opened Wrappers
  import opened Blob
  import opened Inheritance
  import opened Builder

  /** Distinct types got distinct ids. */
  predicate Injective(ids: map<nat, int>)
  {
    forall u, v :: u in ids && v in ids && ids[u] == ids[v] ==> u == v
  }

  /** A subobject list with each type replaced by its id. */
  function Label(ss: seq<Sub>, ids: map<nat, int>): (es: seq<Entry>)
    requires forall i :: 0 <= i < |ss| ==> ss[i].ty in ids
    ensures |es| == |ss|
    ensures forall i :: 0 <= i < |ss| ==> es[i] == Entry(ids[ss[i].ty], ss[i].offset)
  {
    seq(|ss|, i requires 0 <= i < |ss| => Entry(ids[ss[i].ty], ss[i].offset))
  }

  function LabelledAncestry(h: Hierarchy, ids: map<nat, int>, t: nat): seq<Entry>
    requires Shaped(h) && Closed(h, ids.Keys) && t in ids
  {
    AncestryClosed(h, ids.Keys, t);
    Label(Ancestry(h, t), ids)
  }

  function LabelledBases(h: Hierarchy, ids: map<nat, int>, t: nat, k: nat): seq<Entry>
    requires Shaped(h) && Closed(h, ids.Keys) && t in ids && k <= |h[t].bases|
  {
    BasesAncestryClosed(h, ids.Keys, t, k);
    Label(BasesAncestry(h, t, k), ids)
  }

  /** What the bases contribute, base by base: each base's entries moved by its pointer offset. */
  function ConcatPieces(bases: seq<Base>, bbs: seq<seq<Block>>): seq<Entry>
    requires BlocksFor(bases, bbs)
    decreases |bases|
  {
    if bases == [] then []
    else (if bases[0].Direct? then ShiftEntries(Flat(bbs[0]), bases[0].offset) else []) + ConcatPieces(bases[1..], bbs[1..])
  }

  /** Moving a chain whose head sits at offset 0 puts the head at the new offset and moves the rest alike. */
  lemma ShiftCons(bb: seq<Block>, off: int)
    requires |bb| >= 1 && bb[0].offset == 0
    ensures Shift(bb, off) == [Block(off, bb[0].ids)] + Shift(bb[1..], off)
  {
    var x := [Block(off, bb[0].ids)] + Shift(bb[1..], off);
    forall i | 0 <= i < |bb|
      ensures x[i] == Shift(bb, off)[i]
    {
      if i > 0 {
        assert bb[1..][i - 1] == bb[i];
      }
    }
  }

  lemma FillOneFlat(b: Base, bb: seq<Block>, off: int)
    requires b.Direct? ==> |bb| >= 1 && bb[0].offset == 0
    ensures var f := FillOne(b, bb, off);
      Flat([Block(off, f.head)] + f.tail) == if b.Direct? then ShiftEntries(Flat(bb), off) else []
  {
    if b.Direct? {
      assert FillOne(b, bb, off) == Filled(bb[0].ids, Shift(bb[1..], off));
      ShiftCons(bb, off);
      FlatShift(bb, off);
    } else {
      assert Flat([Block(off, [])]) == Tag(Block(off, [])) + Flat([]);
    }
  }

  /**
   * The blocks `FillBases` produces, headed by the first base's offset,
   * flatten to the bases' pieces in order. With one base this needs the
   * caller's offset to be that base's own offset.
   */
  lemma {:induction false} FillBasesFlat(bases: seq<Base>, bbs: seq<seq<Block>>, a: int)
    requires |bases| >= 1 && BlocksFor(bases, bbs)
    requires |bases| == 1 ==> a == bases[0].offset
    ensures var f := FillBases(bases, bbs, a);
      Flat([Block(bases[0].offset, f.head)] + f.tail) == ConcatPieces(bases, bbs)
    decreases |bases|
  {
    var first := FillOne(bases[0], bbs[0], bases[0].offset);
    var piece := if bases[0].Direct? then ShiftEntries(Flat(bbs[0]), bases[0].offset) else [];
    FillOneFlat(bases[0], bbs[0], bases[0].offset);
    assert ConcatPieces(bases, bbs) == piece + ConcatPieces(bases[1..], bbs[1..]);
    if |bases| == 1 {
      assert ConcatPieces(bases[1..], bbs[1..]) == [];
    } else {
      var o1 := bases[1].offset;
      var next := FillBases(bases[1..], bbs[1..], o1);
      FillBasesFlat(bases[1..], bbs[1..], o1);
      assert FillBases(bases, bbs, a) == Filled(first.head, first.tail + [Block(o1, next.head)] + next.tail);
      JoinFlat(Block(bases[0].offset, first.head), first.tail, Block(o1, next.head), next.tail);
    }
  }

  /** The blocks of two filled bases, one after the other, flatten to the first's entries and then the second's. */
  lemma JoinFlat(b0: Block, tail0: seq<Block>, b1: Block, tail1: seq<Block>)
    ensures Flat([b0] + (tail0 + [b1] + tail1)) == Flat([b0] + tail0) + Flat([b1] + tail1)
  {
    assert [b0] + (tail0 + [b1] + tail1) == ([b0] + tail0) + ([b1] + tail1);
    FlatAppend([b0] + tail0, [b1] + tail1);
  }

  lemma LabelAppend(a: seq<Sub>, b: seq<Sub>, ids: map<nat, int>)
    requires forall i :: 0 <= i < |a| ==> a[i].ty in ids
    requires forall i :: 0 <= i < |b| ==> b[i].ty in ids
    ensures Label(a + b, ids) == Label(a, ids) + Label(b, ids)
  {
  }

  lemma LabelShift(ss: seq<Sub>, d: int, ids: map<nat, int>)
    requires forall i :: 0 <= i < |ss| ==> ss[i].ty in ids
    ensures Label(ShiftSubs(ss, d), ids) == ShiftEntries(Label(ss, ids), d)
  {
  }

  /** A type's own id at offset 0, then the pieces of its bases in declaration order. */
  lemma AssembleFlat(id: int, bases: seq<Base>, bbs: seq<seq<Block>>)
    requires BlocksFor(bases, bbs) && (bases != [] ==> bases[0].offset == 0)
    ensures Flat(Assemble(id, bases, bbs)) == [Entry(id, 0)] + ConcatPieces(bases, bbs)
  {
    if bases == [] {
      assert Flat([Block(0, [id])]) == Tag(Block(0, [id])) + Flat([]);
    } else {
      var f := FillBases(bases, bbs, 0);
      FillBasesFlat(bases, bbs, 0);
      HeadIdFlat(id, f.head, f.tail);
    }
  }

  /** Putting the type's own id in front of the head block puts its entry, at offset 0, in front of the list. */
  lemma HeadIdFlat(id: int, head: seq<int>, tail: seq<Block>)
    ensures Flat([Block(0, [id] + head)] + tail) == [Entry(id, 0)] + Flat([Block(0, head)] + tail)
  {
    var hb, tb := [Block(0, head)] + tail, [Block(0, [id] + head)] + tail;
    assert hb[0] == Block(0, head) && hb[1..] == tail;
    assert tb[0] == Block(0, [id] + head) && tb[1..] == tail;
    assert Tag(Block(0, [id] + head)) == [Entry(id, 0)] + Tag(Block(0, head));
  }

  /**
   * The main correspondence: the blob of `t`, read block by block and id by
   * id, is the subobject list of `t` with every type replaced by its id.
   */
  lemma {:induction false} Flatten(h: Hierarchy, ids: map<nat, int>, t: nat)
    requires WellFormed(h) && Closed(h, ids.Keys) && t in ids
    ensures Flat(TypeBlocks(h, ids, t)) == LabelledAncestry(h, ids, t)
    decreases t, |h[t].bases| + 1
  {
    var bases, bbs := h[t].bases, BaseBlocks(h, ids, t, 0);
    assert bases[0..] == bases;
    AncestryClosed(h, ids.Keys, t);
    BasesAncestryClosed(h, ids.Keys, t, 0);
    LabelAppend([Sub(t, 0)], BasesAncestry(h, t, 0), ids);
    BasesFlatten(h, ids, t, 0);
    if bases != [] {
      assert BaseOk(bases, 0);
    }
    AssembleFlat(ids[t], bases, bbs);
  }

  lemma {:induction false} BasesFlatten(h: Hierarchy, ids: map<nat, int>, t: nat, k: nat)
    requires WellFormed(h) && Closed(h, ids.Keys) && t in ids && k <= |h[t].bases|
    ensures ConcatPieces(h[t].bases[k..], BaseBlocks(h, ids, t, k)) == LabelledBases(h, ids, t, k)
    decreases t, |h[t].bases| - k
  {
    var bases := h[t].bases;
    BasesAncestryClosed(h, ids.Keys, t, k);
    if k < |bases| {
      var b := bases[k];
      var bbs := BaseBlocks(h, ids, t, k);
      assert bases[k..][0] == b && bases[k..][1..] == bases[k + 1..];
      assert bbs[1..] == BaseBlocks(h, ids, t, k + 1);
      BasesAncestryClosed(h, ids.Keys, t, k + 1);
      BasesFlatten(h, ids, t, k + 1);
      var mine := if b.Direct? then ShiftSubs(Ancestry(h, b.base), b.offset) else [];
      assert BasesAncestry(h, t, k) == mine + BasesAncestry(h, t, k + 1);
      if b.Direct? {
        AncestryClosed(h, ids.Keys, b.base);
        Flatten(h, ids, b.base);
        assert bbs[0] == TypeBlocks(h, ids, b.base);
        LabelShift(Ancestry(h, b.base), b.offset, ids);
      }
      LabelAppend(mine, BasesAncestry(h, t, k + 1), ids);
    }
  }

  // ---------------------------------------------------------------------
  // Scanning a labelled list

  /** With distinct ids, the first entry carrying the id of `a` is the first subobject of type `a`. */
  lemma {:induction false} FirstMatchLabel(ss: seq<Sub>, ids: map<nat, int>, a: nat)
    requires forall i :: 0 <= i < |ss| ==> ss[i].ty in ids
    requires Injective(ids) && a in ids
    ensures FirstMatch(Label(ss, ids), ids[a]) == FirstOffset(ss, a)
  {
    if ss != [] {
      assert Label(ss, ids)[1..] == Label(ss[1..], ids);
      FirstMatchLabel(ss[1..], ids, a);
    }
  }

  /** An id no registered type has is never found. */
  lemma {:induction false} FirstMatchForeign(ss: seq<Sub>, ids: map<nat, int>, x: int)
    requires forall i :: 0 <= i < |ss| ==> ss[i].ty in ids
    requires x !in ids.Values
    ensures FirstMatch(Label(ss, ids), x) == None
  {
    if ss != [] {
      assert ids[ss[0].ty] in ids.Values;
      assert Label(ss, ids)[1..] == Label(ss[1..], ids);
      FirstMatchForeign(ss[1..], ids, x);
    }
  }

  /** The address a cast of `p` to `a` should give on an object of type `t`: `p` moved to the first `a` subobject, or null. */
  function Expected(h: Hierarchy, t: nat, a: nat, p: int): int
    requires Shaped(h) && t < |h|
  {
    match FirstOffset(Ancestry(h, t), a)
    case Some(o) => p + o
    case None => 0
  }

  /**
   * Soundness and completeness of the cast scan on a built blob: it yields
   * the pointer moved to the first subobject of the target type when the
   * target is the type or one of its ancestors, and null otherwise.
   */
  lemma CastSound(h: Hierarchy, ids: map<nat, int>, t: nat, a: nat, p: int)
    requires WellFormed(h) && Closed(h, ids.Keys) && t in ids && a in ids && Injective(ids)
    ensures CastResult(TypeBlocks(h, ids, t), p, ids[a]) == Expected(h, t, a, p)
  {
    Flatten(h, ids, t);
    AncestryClosed(h, ids.Keys, t);
    FindBlockIsFirstMatch(TypeBlocks(h, ids, t), ids[a]);
    FirstMatchLabel(Ancestry(h, t), ids, a);
  }

  /** A cast with an id that belongs to no registered type yields null. */
  lemma CastForeign(h: Hierarchy, ids: map<nat, int>, t: nat, x: int, p: int)
    requires WellFormed(h) && Closed(h, ids.Keys) && t in ids && x !in ids.Values
    ensures CastResult(TypeBlocks(h, ids, t), p, x) == 0
  {
    Flatten(h, ids, t);
    AncestryClosed(h, ids.Keys, t);
    FindBlockIsFirstMatch(TypeBlocks(h, ids, t), x);
    FirstMatchForeign(Ancestry(h, t), ids, x);
  }

  /** Casting to the object's own type gives the pointer back. */
  lemma CastToSelf(h: Hierarchy, ids: map<nat, int>, t: nat, p: int)
    requires WellFormed(h) && Closed(h, ids.Keys) && t in ids && Injective(ids)
    ensures CastResult(TypeBlocks(h, ids, t), p, ids[t]) == p
  {
    CastSound(h, ids, t, t, p);
  }

  /**
   * Casting to an ancestor gives a pointer at or after the object's address
   * (so not null when the object is not), and casting to a type that is not
   * an ancestor gives null.
   */
  lemma CastAncestorOrNull(h: Hierarchy, ids: map<nat, int>, t: nat, a: nat, p: int)
    requires WellFormed(h) && Closed(h, ids.Keys) && t in ids && a in ids && Injective(ids)
    ensures IsBaseOf(h, a, t) ==> CastResult(TypeBlocks(h, ids, t), p, ids[a]) >= p
    ensures !IsBaseOf(h, a, t) ==> CastResult(TypeBlocks(h, ids, t), p, ids[a]) == 0
  {
    CastSound(h, ids, t, a, p);
    AncestryNonNegative(h, t);
  }
}
