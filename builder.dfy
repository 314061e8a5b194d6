/**
 * The descriptor builder: how each registered type's hierarchy blob is made
 * from its own id and its direct bases' blobs.
 *
 * The functions mirror the template specialisations of the source one for
 * one: `FillOne` is `BaseTypeData<Base>` (and the `enable_shared_from_this`
 * specialisation), `FillBases` is the variadic `BaseTypeData<First, Second,
 * Next...>`, and `Assemble` is `TypeDataImpl<Type, Bases...>` together with
 * the base-less `TypeDataImpl<Type>`. They work on block chains; `TypeData`
 * gives the words.
 */
module Builder {
  import opened Wrappers
  import opened Blob
  import opened Inheritance

  /** What a `BaseTypeData` fills in: the ids for the block it heads, and the blocks after that one. */
  datatype Filled = Filled(head: seq<int>, tail: seq<Block>)

  /** `bbs[i]` holds the blocks of base `i`, head block first at offset 0, for every registered base. */
  predicate BlocksFor(bases: seq<Base>, bbs: seq<seq<Block>>)
  {
    |bbs| == |bases| && forall i :: 0 <= i < |bases| && bases[i].Direct? ==> |bbs[i]| >= 1 && bbs[i][0].offset == 0
  }

  /**
   * `BaseTypeData<Base>::FillBaseTypeData` for one base with blocks `bb`: the
   * base's head ids, and its later blocks with their offsets moved by
   * `aOffset`. `enable_shared_from_this` contributes nothing at all.
   */
  function FillOne(b: Base, bb: seq<Block>, aOffset: int): (r: Filled)
    requires b.Direct? ==> |bb| >= 1
    ensures b.SharedFromThis? ==> r.head == [] && r.tail == []
    ensures b.Direct? ==> r.head == bb[0].ids && |r.tail| == |bb| - 1
    ensures b.Direct? ==> forall k :: 0 <= k < |r.tail| ==> r.tail[k] == Block(bb[k + 1].offset + aOffset, bb[k + 1].ids)
  {
    match b
    case SharedFromThis(_) => Filled([], [])
    case Direct(_, _) => Filled(bb[0].ids, Shift(bb[1..], aOffset))
  }

  /**
   * `BaseTypeData<Bases...>::FillBaseTypeData`. With one base, that base is
   * filled with the caller's `aOffset`. With more, the first base is filled
   * with its own pointer offset, and the rest start a new block at the second
   * base's pointer offset (`myOffset`); `aOffset` is not used.
   */
  function FillBases(bases: seq<Base>, bbs: seq<seq<Block>>, aOffset: int): (r: Filled)
    requires |bases| >= 1 && BlocksFor(bases, bbs)
    ensures bases[0].Direct? ==> r.head == bbs[0][0].ids
    ensures bases[0].SharedFromThis? ==> r.head == []
    ensures |r.tail| >= |bases| - 1
    decreases |bases|
  {
    if |bases| == 1 then FillOne(bases[0], bbs[0], aOffset)
    else
      var first := FillOne(bases[0], bbs[0], bases[0].offset);
      var myOffset := bases[1].offset;
      var next := FillBases(bases[1..], bbs[1..], myOffset);
      Filled(first.head, first.tail + [Block(myOffset, next.head)] + next.tail)
  }

  /**
   * `TypeDataImpl`: the type's own id, then the bases filled with offset 0,
   * all in the head block; a type without bases has the single block `[id]`.
   */
  function Assemble(id: int, bases: seq<Base>, bbs: seq<seq<Block>>): (bs: seq<Block>)
    requires BlocksFor(bases, bbs)
    ensures |bs| >= 1 && bs[0].offset == 0 && |bs[0].ids| >= 1 && bs[0].ids[0] == id
  {
    if bases == [] then [Block(0, [id])]
    else
      var filled := FillBases(bases, bbs, 0);
      [Block(0, [id] + filled.head)] + filled.tail
  }

  /** The block chains of the direct bases of `t`, from the `k`-th on (an empty chain for `enable_shared_from_this`). */
  function BaseBlocks(h: Hierarchy, ids: map<nat, int>, t: nat, k: nat): (bbs: seq<seq<Block>>)
    requires Shaped(h) && Closed(h, ids.Keys) && t in ids && k <= |h[t].bases|
    ensures BlocksFor(h[t].bases[k..], bbs)
    decreases t, |h[t].bases| - k
  {
    if k == |h[t].bases| then []
    else
      var b := h[t].bases[k];
      var rest := BaseBlocks(h, ids, t, k + 1);
      assert h[t].bases[k..][1..] == h[t].bases[k + 1..];
      [if b.Direct? then TypeBlocks(h, ids, b.base) else []] + rest
  }

  /** The block chain of type `t`, built from its bases' chains; `ids` are the ids handed out so far. */
  function TypeBlocks(h: Hierarchy, ids: map<nat, int>, t: nat): (bs: seq<Block>)
    requires Shaped(h) && Closed(h, ids.Keys) && t in ids
    ensures |bs| >= 1 && bs[0].offset == 0 && |bs[0].ids| >= 1 && bs[0].ids[0] == ids[t]
    decreases t, |h[t].bases| + 1
  {
    var bbs := BaseBlocks(h, ids, t, 0);
    assert h[t].bases[0..] == h[t].bases;
    Assemble(ids[t], h[t].bases, bbs)
  }

  /** The words of `TypeData<T>`; `GetTypeId` reads the type's own id right after the head size. */
  function TypeData(h: Hierarchy, ids: map<nat, int>, t: nat): (w: seq<int>)
    requires Shaped(h) && Closed(h, ids.Keys) && t in ids
    ensures |w| >= 3 && w[0] >= 1 && w[1] == ids[t] && w[|w| - 1] == 0
  {
    Encode(TypeBlocks(h, ids, t))
  }

  // ---------------------------------------------------------------------
  // Word-level shape of what the builder writes

  /** The words `BaseTypeData<Base>` writes into `myData`: the base's blob without its size word and end marker, offsets moved. */
  function CopyWords(bb: seq<Block>, aOffset: int): seq<int>
    requires |bb| >= 1
  {
    bb[0].ids + EncodeTail(Shift(bb[1..], aOffset))
  }

  /** Whether word `k` of `EncodeTail(bs)` is an offset word (and not a size or an id). */
  predicate IsOffsetSlot(bs: seq<Block>, k: nat)
    decreases |bs|
  {
    if bs == [] then false
    else if k == 0 then true
    else if k < 2 + |bs[0].ids| then false
    else IsOffsetSlot(bs[1..], k - 2 - |bs[0].ids|)
  }

  lemma {:induction false} ShiftTailWordwise(bs: seq<Block>, a: int)
    ensures |EncodeTail(Shift(bs, a))| == |EncodeTail(bs)|
    ensures forall k :: 0 <= k < |EncodeTail(bs)| ==>
      EncodeTail(Shift(bs, a))[k] == EncodeTail(bs)[k] + (if IsOffsetSlot(bs, k) then a else 0)
  {
    if bs != [] {
      var n := 2 + |bs[0].ids|;
      assert Shift(bs, a)[1..] == Shift(bs[1..], a);
      ShiftTailWordwise(bs[1..], a);
      var e, e' := EncodeTail(bs), EncodeTail(Shift(bs, a));
      assert e == [bs[0].offset, |bs[0].ids|] + bs[0].ids + EncodeTail(bs[1..]);
      assert e' == [bs[0].offset + a, |bs[0].ids|] + bs[0].ids + EncodeTail(Shift(bs[1..], a));
      forall k | 0 <= k < |e|
        ensures e'[k] == e[k] + (if IsOffsetSlot(bs, k) then a else 0)
      {
        if k >= n {
          assert e[k] == EncodeTail(bs[1..])[k - n];
          assert e'[k] == EncodeTail(Shift(bs[1..], a))[k - n];
        }
      }
    }
  }

  /**
   * The copy loop of `BaseTypeData<Base>`: word `k` of what it writes is word
   * `k + 1` of the base's blob (after the head size), unchanged for a size or
   * an id and moved by `aOffset` for an offset; the end marker is not copied.
   */
  lemma CopyWordwise(bb: seq<Block>, aOffset: int)
    requires |bb| >= 1
    ensures |CopyWords(bb, aOffset)| == |Encode(bb)| - 2
    ensures forall k :: 0 <= k < |CopyWords(bb, aOffset)| ==>
      CopyWords(bb, aOffset)[k] == Encode(bb)[k + 1] +
        (if k >= |bb[0].ids| && IsOffsetSlot(bb[1..], k - |bb[0].ids|) then aOffset else 0)
  {
    ShiftTailWordwise(bb[1..], aOffset);
    var n := |bb[0].ids|;
    var c, e := CopyWords(bb, aOffset), Encode(bb);
    forall k | 0 <= k < |c|
      ensures c[k] == e[k + 1] + (if k >= n && IsOffsetSlot(bb[1..], k - n) then aOffset else 0)
    {
      if k >= n {
        assert c[k] == EncodeTail(Shift(bb[1..], aOffset))[k - n];
        assert e[k + 1] == EncodeTail(bb[1..])[k - n];
      }
    }
  }

  /** The head size one `BaseTypeData<Base>` reports: the base's head size, or nothing written (0) for `enable_shared_from_this`. */
  function HeadSize(b: Base, bb: seq<Block>): nat
    requires b.Direct? ==> |bb| >= 1
  {
    if b.Direct? then |bb[0].ids| else 0
  }

  /** The words one `BaseTypeData<Base>` holds once filled with `aOffset`. */
  function Piece(b: Base, bb: seq<Block>, aOffset: int): seq<int>
    requires b.Direct? ==> |bb| >= 1
  {
    if b.Direct? then CopyWords(bb, aOffset) else []
  }

  lemma FillOneWords(b: Base, bb: seq<Block>, aOffset: int)
    requires b.Direct? ==> |bb| >= 1
    ensures |FillOne(b, bb, aOffset).head| == HeadSize(b, bb)
    ensures FillOne(b, bb, aOffset).head + EncodeTail(FillOne(b, bb, aOffset).tail) == Piece(b, bb, aOffset)
  {
  }

  /** The words after the first base's piece: for each later base, `myOffset`, `mySize` and its piece moved by `myOffset`. */
  function SecondaryWords(bases: seq<Base>, bbs: seq<seq<Block>>): seq<int>
    requires BlocksFor(bases, bbs)
    decreases |bases|
  {
    if bases == [] then []
    else
      [bases[0].offset, HeadSize(bases[0], bbs[0])] + Piece(bases[0], bbs[0], bases[0].offset)
        + SecondaryWords(bases[1..], bbs[1..])
  }

  /** One more base at the end adds its `myOffset`, `mySize` and piece at the end. */
  lemma BlocksForSnoc(bases: seq<Base>, bbs: seq<seq<Block>>, b: Base, bb: seq<Block>)
    requires BlocksFor(bases, bbs) && (b.Direct? ==> |bb| >= 1 && bb[0].offset == 0)
    ensures BlocksFor(bases + [b], bbs + [bb])
  {
  }

  lemma {:induction false} SecondaryWordsSnoc(bases: seq<Base>, bbs: seq<seq<Block>>, b: Base, bb: seq<Block>)
    requires BlocksFor(bases, bbs) && (b.Direct? ==> |bb| >= 1 && bb[0].offset == 0)
    ensures BlocksFor(bases + [b], bbs + [bb]) && SecondaryWords(bases + [b], bbs + [bb]) ==
      SecondaryWords(bases, bbs) + ([b.offset, HeadSize(b, bb)] + Piece(b, bb, b.offset))
    decreases |bases|
  {
    BlocksForSnoc(bases, bbs, b, bb);
    var last := [b.offset, HeadSize(b, bb)] + Piece(b, bb, b.offset);
    if bases == [] {
      assert bases + [b] == [b] && bbs + [bb] == [bb];
      assert SecondaryWords([b], [bb]) == last + SecondaryWords([], []);
    } else {
      var first := [bases[0].offset, HeadSize(bases[0], bbs[0])] + Piece(bases[0], bbs[0], bases[0].offset);
      assert (bases + [b])[0] == bases[0] && (bbs + [bb])[0] == bbs[0];
      assert (bases + [b])[1..] == bases[1..] + [b] && (bbs + [bb])[1..] == bbs[1..] + [bb];
      SecondaryWordsSnoc(bases[1..], bbs[1..], b, bb);
      assert SecondaryWords(bases + [b], bbs + [bb]) == first + (SecondaryWords(bases[1..], bbs[1..]) + last);
      SeqAssoc(first, SecondaryWords(bases[1..], bbs[1..]), last);
    }
  }

  lemma {:induction false} FillBasesWords(bases: seq<Base>, bbs: seq<seq<Block>>, aOffset: int)
    requires |bases| >= 2 && BlocksFor(bases, bbs)
    ensures var f := FillBases(bases, bbs, aOffset);
      |f.head| == HeadSize(bases[0], bbs[0]) &&
      f.head + EncodeTail(f.tail) == Piece(bases[0], bbs[0], bases[0].offset) + SecondaryWords(bases[1..], bbs[1..])
    decreases |bases|, 1
  {
    var first := FillOne(bases[0], bbs[0], bases[0].offset);
    FillOneWords(bases[0], bbs[0], bases[0].offset);
    var myOffset := bases[1].offset;
    var next := FillBases(bases[1..], bbs[1..], myOffset);
    var nextWords := Piece(bases[1], bbs[1], myOffset) + SecondaryWords(bases[2..], bbs[2..]);
    LaterBasesWords(bases, bbs);
    JoinFilled(first, myOffset, next, Piece(bases[0], bbs[0], bases[0].offset), nextWords);
  }

  /** The bases after the first, filled with the second base's offset, give the words after the second base's offset word. */
  lemma {:induction false} LaterBasesWords(bases: seq<Base>, bbs: seq<seq<Block>>)
    requires |bases| >= 2 && BlocksFor(bases, bbs)
    ensures var next := FillBases(bases[1..], bbs[1..], bases[1].offset);
      var nextWords := Piece(bases[1], bbs[1], bases[1].offset) + SecondaryWords(bases[2..], bbs[2..]);
      && |next.head| == HeadSize(bases[1], bbs[1]) && next.head + EncodeTail(next.tail) == nextWords
      && SecondaryWords(bases[1..], bbs[1..]) == [bases[1].offset, |next.head|] + nextWords
    decreases |bases|, 0
  {
    var myOffset := bases[1].offset;
    assert bases[1..][1..] == bases[2..] && bbs[1..][1..] == bbs[2..];
    FillOneWords(bases[1], bbs[1], myOffset);
    if |bases| == 2 {
      assert FillBases(bases[1..], bbs[1..], myOffset) == FillOne(bases[1], bbs[1], myOffset);
      assert SecondaryWords(bases[2..], bbs[2..]) == [];
    } else {
      FillBasesWords(bases[1..], bbs[1..], myOffset);
    }
  }

  /** Joining a filled first base and the filled later bases behind the second base's offset word. */
  lemma JoinFilled(first: Filled, myOffset: int, next: Filled, firstWords: seq<int>, nextWords: seq<int>)
    requires first.head + EncodeTail(first.tail) == firstWords
    requires next.head + EncodeTail(next.tail) == nextWords
    ensures first.head + EncodeTail(first.tail + [Block(myOffset, next.head)] + next.tail) ==
      firstWords + ([myOffset, |next.head|] + nextWords)
  {
    EncodeTailJoin(first.tail, myOffset, next.head, next.tail);
    SeqAssoc(first.head, EncodeTail(first.tail), [myOffset, |next.head|] + nextWords);
  }

  lemma SeqAssoc<T>(a: seq<T>, b: seq<T>, c: seq<T>)
    ensures a + (b + c) == a + b + c
  {
  }

  lemma EncodeTailJoin(a: seq<Block>, o: int, ids: seq<int>, b: seq<Block>)
    ensures EncodeTail(a + [Block(o, ids)] + b) == EncodeTail(a) + [o, |ids|] + (ids + EncodeTail(b))
  {
    var nb := [Block(o, ids)] + b;
    assert a + [Block(o, ids)] + b == a + nb;
    EncodeTailAppend(a, nb);
    assert nb[0] == Block(o, ids) && nb[1..] == b;
    assert EncodeTail(nb) == [o, |ids|] + ids + EncodeTail(b);
  }

  lemma {:induction false} EncodeTailAppend(a: seq<Block>, b: seq<Block>)
    ensures EncodeTail(a + b) == EncodeTail(a) + EncodeTail(b)
  {
    if a == [] {
      assert a + b == b;
    } else {
      assert (a + b)[0] == a[0] && (a + b)[1..] == a[1..] + b;
      EncodeTailAppend(a[1..], b);
    }
  }

  /** The offset the first base is filled with: its own pointer offset, or 0 when it is the only base. */
  function FirstFillOffset(bases: seq<Base>): int
    requires |bases| >= 1
  {
    if |bases| == 1 then 0 else bases[0].offset
  }

  /**
   * The words of a built blob with at least one base: head size one more
   * than the first base's, the type's id, the first base's piece, every
   * later base's offset, head size and piece, and one 0.
   */
  lemma AssembleWords(id: int, bases: seq<Base>, bbs: seq<seq<Block>>)
    requires |bases| >= 1 && BlocksFor(bases, bbs)
    ensures Encode(Assemble(id, bases, bbs)) ==
      [1 + HeadSize(bases[0], bbs[0]), id] + Piece(bases[0], bbs[0], FirstFillOffset(bases))
        + SecondaryWords(bases[1..], bbs[1..]) + [0]
  {
    var f := FillBases(bases, bbs, 0);
    var first := Piece(bases[0], bbs[0], FirstFillOffset(bases));
    var later := SecondaryWords(bases[1..], bbs[1..]);
    assert |f.head| == HeadSize(bases[0], bbs[0]) && f.head + EncodeTail(f.tail) == first + later by {
      if |bases| == 1 {
        FillOneWords(bases[0], bbs[0], 0);
        assert later == [];
      } else {
        FillBasesWords(bases, bbs, 0);
      }
    }
    assert Assemble(id, bases, bbs) == [Block(0, [id] + f.head)] + f.tail;
    HeadWords(id, f.head, f.tail, first, later);
  }

  /** The blob whose head block is the type's own id and then `head`, when `head` and the later blocks make up `first + later`. */
  lemma HeadWords(id: int, head: seq<int>, tail: seq<Block>, first: seq<int>, later: seq<int>)
    requires head + EncodeTail(tail) == first + later
    ensures Encode([Block(0, [id] + head)] + tail) == [1 + |head|, id] + first + later + [0]
  {
    EncodeHead(id, head, tail);
    SeqAssoc([1 + |head|, id], first, later);
  }

  /**
   * The blob of a type with two or more bases: the head size is one more than
   * the first base's, then the type's id and the first base's piece (moved by
   * its own pointer offset), then for every later base its pointer offset, its
   * head size and its piece moved by that offset, and one 0.
   */
  lemma MultiBaseData(h: Hierarchy, ids: map<nat, int>, t: nat)
    requires Shaped(h) && Closed(h, ids.Keys) && t in ids && |h[t].bases| >= 2
    ensures var bases, bbs := h[t].bases, BaseBlocks(h, ids, t, 0);
      TypeData(h, ids, t) ==
        [1 + HeadSize(bases[0], bbs[0]), ids[t]] + Piece(bases[0], bbs[0], bases[0].offset)
          + SecondaryWords(bases[1..], bbs[1..]) + [0]
  {
    assert h[t].bases[0..] == h[t].bases;
    AssembleWords(ids[t], h[t].bases, BaseBlocks(h, ids, t, 0));
  }

  /** The blob of a chain whose head block is the type's own id followed by `head`. */
  lemma EncodeHead(id: int, head: seq<int>, tail: seq<Block>)
    ensures Encode([Block(0, [id] + head)] + tail) == [1 + |head|, id] + (head + EncodeTail(tail)) + [0]
  {
    var bs := [Block(0, [id] + head)] + tail;
    assert bs[0].ids == [id] + head && bs[1..] == tail;
  }

  /** A type without bases gets the blob `[1, id, 0]`. */
  lemma NoBaseData(h: Hierarchy, ids: map<nat, int>, t: nat)
    requires Shaped(h) && Closed(h, ids.Keys) && t in ids && h[t].bases == []
    ensures TypeData(h, ids, t) == [1, ids[t], 0]
  {
  }

  /**
   * Single inheritance: the head size grows by one, the type's own id goes
   * first, and everything after the base's head size is the base's blob
   * unchanged (the base is filled with offset 0, whatever its pointer offset).
   */
  lemma SingleBaseData(h: Hierarchy, ids: map<nat, int>, t: nat)
    requires Shaped(h) && Closed(h, ids.Keys) && t in ids
    requires |h[t].bases| == 1 && h[t].bases[0].Direct?
    ensures var b := h[t].bases[0].base;
      TypeData(h, ids, t) == [TypeData(h, ids, b)[0] + 1, ids[t]] + TypeData(h, ids, b)[1..]
  {
    var b := h[t].bases[0].base;
    var bb := TypeBlocks(h, ids, b);
    assert h[t].bases[0..] == h[t].bases && h[t].bases == [h[t].bases[0]];
    assert BaseBlocks(h, ids, t, 1) == [];
    assert BaseBlocks(h, ids, t, 0) == [bb];
    assert TypeBlocks(h, ids, t) == Assemble(ids[t], [h[t].bases[0]], [bb]);
    AssembleSingle(ids[t], h[t].bases[0], bb);
  }

  lemma AssembleSingle(id: int, b: Base, bb: seq<Block>)
    requires b.Direct? && |bb| >= 1 && bb[0].offset == 0
    ensures Encode(Assemble(id, [b], [bb])) == [Encode(bb)[0] + 1, id] + Encode(bb)[1..]
  {
    assert Shift(bb[1..], 0) == bb[1..];
    assert Assemble(id, [b], [bb]) == [Block(0, [id] + bb[0].ids)] + bb[1..];
    EncodeHead(id, bb[0].ids, bb[1..]);
    var rest := bb[0].ids + EncodeTail(bb[1..]) + [0];
    assert Encode(bb) == [|bb[0].ids|] + rest;
    assert Encode(bb)[1..] == rest;
  }

  // ---------------------------------------------------------------------
  // The ids handed out later do not change a blob built earlier

  predicate Extends(ids: map<nat, int>, ids': map<nat, int>)
  {
    forall u :: u in ids ==> u in ids' && ids'[u] == ids[u]
  }

  lemma {:induction false} TypeBlocksFrame(h: Hierarchy, ids: map<nat, int>, ids': map<nat, int>, t: nat)
    requires Shaped(h) && Closed(h, ids.Keys) && Closed(h, ids'.Keys) && Extends(ids, ids') && t in ids
    ensures TypeBlocks(h, ids', t) == TypeBlocks(h, ids, t)
    decreases t, |h[t].bases| + 1
  {
    BaseBlocksFrame(h, ids, ids', t, 0);
  }

  lemma {:induction false} BaseBlocksFrame(h: Hierarchy, ids: map<nat, int>, ids': map<nat, int>, t: nat, k: nat)
    requires Shaped(h) && Closed(h, ids.Keys) && Closed(h, ids'.Keys) && Extends(ids, ids') && t in ids
    requires k <= |h[t].bases|
    ensures BaseBlocks(h, ids', t, k) == BaseBlocks(h, ids, t, k)
    decreases t, |h[t].bases| - k
  {
    if k < |h[t].bases| {
      var b := h[t].bases[k];
      if b.Direct? {
        TypeBlocksFrame(h, ids, ids', b.base);
      }
      BaseBlocksFrame(h, ids, ids', t, k + 1);
    }
  }

  // ---------------------------------------------------------------------
  // Built blobs are valid blobs

  predicate TailPositive(bs: seq<Block>)
  {
    forall i :: 1 <= i < |bs| ==> bs[i].offset > 0
  }

  lemma FillOnePositive(b: Base, bb: seq<Block>, a: int)
    requires b.Direct? ==> |bb| >= 1 && TailPositive(bb)
    requires a >= 0
    ensures forall i :: 0 <= i < |FillOne(b, bb, a).tail| ==> FillOne(b, bb, a).tail[i].offset > 0
  {
    if b.Direct? {
      forall i | 0 <= i < |FillOne(b, bb, a).tail|
        ensures FillOne(b, bb, a).tail[i].offset > 0
      {
        assert bb[1..][i] == bb[i + 1];
      }
    }
  }

  lemma {:induction false} FillBasesPositive(bases: seq<Base>, bbs: seq<seq<Block>>, a: int)
    requires |bases| >= 1 && BlocksFor(bases, bbs)
    requires forall i :: 0 <= i < |bases| && bases[i].Direct? ==> TailPositive(bbs[i])
    requires a >= 0 && bases[0].offset >= 0
    requires forall i :: 1 <= i < |bases| ==> bases[i].offset > 0
    ensures forall i :: 0 <= i < |FillBases(bases, bbs, a).tail| ==> FillBases(bases, bbs, a).tail[i].offset > 0
    decreases |bases|
  {
    if |bases| == 1 {
      FillOnePositive(bases[0], bbs[0], a);
    } else {
      FillOnePositive(bases[0], bbs[0], bases[0].offset);
      FillBasesPositive(bases[1..], bbs[1..], bases[1].offset);
    }
  }

  lemma {:induction false} TypeBlocksPositive(h: Hierarchy, ids: map<nat, int>, t: nat)
    requires WellFormed(h) && Closed(h, ids.Keys) && t in ids
    ensures TailPositive(TypeBlocks(h, ids, t))
    decreases t, |h[t].bases| + 1
  {
    var bases, bbs := h[t].bases, BaseBlocks(h, ids, t, 0);
    if bases != [] {
      assert bases[0..] == bases;
      BaseBlocksPositive(h, ids, t, 0);
      assert BaseOk(bases, 0);
      forall i | 1 <= i < |bases|
        ensures bases[i].offset > 0
      {
        assert BaseOk(bases, i);
      }
      FillBasesPositive(bases, bbs, 0);
    }
  }

  lemma {:induction false} BaseBlocksPositive(h: Hierarchy, ids: map<nat, int>, t: nat, k: nat)
    requires WellFormed(h) && Closed(h, ids.Keys) && t in ids && k <= |h[t].bases|
    ensures forall i :: 0 <= i < |h[t].bases| - k && h[t].bases[k + i].Direct? ==> TailPositive(BaseBlocks(h, ids, t, k)[i])
    decreases t, |h[t].bases| - k
  {
    if k < |h[t].bases| {
      var b := h[t].bases[k];
      if b.Direct? {
        TypeBlocksPositive(h, ids, b.base);
      }
      BaseBlocksPositive(h, ids, t, k + 1);
    }
  }

  /** With the documented layout, every built blob decodes back to the chain it was built from. */
  lemma BuiltBlobDecodes(h: Hierarchy, ids: map<nat, int>, t: nat)
    requires WellFormed(h) && Closed(h, ids.Keys) && t in ids
    ensures ValidBlocks(TypeBlocks(h, ids, t))
    ensures Decode(TypeData(h, ids, t)) == Some(TypeBlocks(h, ids, t))
  {
    TypeBlocksPositive(h, ids, t);
    DecodeEncode(TypeBlocks(h, ids, t));
  }
}
