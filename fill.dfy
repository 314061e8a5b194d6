/**
 * The descriptor builder as the constructors run it: every `TypeData` is a
 * zero-initialised buffer of words, laid out as `mySize`, `myTypeId`, the
 * nested `BaseTypeData` members and `myEndMarker`, and the constructors
 * fill it in place.
 */
module Fill {
  import opened Wrappers
  import opened Blob
  import opened Inheritance
  import opened Builder

  /** `memcpy` of `n` words from `src[from..]` into `data[to..]`; the rest of the buffer is left alone. */
  method CopyInto(src: seq<int>, from: nat, data: array<int>, to: nat, n: nat)
    requires from + n <= |src| && to + n <= data.Length
    modifies data
    ensures forall k :: to <= k < to + n ==> data[k] == src[from + (k - to)]
    ensures forall k :: 0 <= k < data.Length && !(to <= k < to + n) ==> data[k] == old(data[k])
  {
    var i := 0;
    while i < n
      invariant 0 <= i <= n
      invariant forall k :: to <= k < to + i ==> data[k] == src[from + (k - to)]
      invariant forall k :: 0 <= k < data.Length && !(to <= k < to + i) ==> data[k] == old(data[k])
    {
      data[to + i] := src[from + i];
      i := i + 1;
    }
  }

  /** Word `m` of what `BaseTypeData<Base>` copies from the base's blob `bb` is a block offset (the head ids come first and hold none). */
  predicate Slot(bb: seq<Block>, m: nat)
    requires |bb| >= 1
  {
    m >= |bb[0].ids| && IsOffsetSlot(bb[1..], m - |bb[0].ids|)
  }

  /** Where block `j` (after the head) starts among the copied words. */
  function SlotPos(bb: seq<Block>, j: nat): nat
    requires 1 <= j <= |bb|
  {
    |bb[0].ids| + |EncodeTail(bb[1..j])|
  }

  /** In the words of a block list, block `i` starts with an offset word, and its size and ids are not offsets. */
  lemma {:induction false} SlotsOfBlock(bs: seq<Block>, i: nat)
    requires i < |bs|
    ensures IsOffsetSlot(bs, |EncodeTail(bs[..i])|)
    ensures forall d :: |EncodeTail(bs[..i])| < d < |EncodeTail(bs[..i])| + 2 + |bs[i].ids| ==> !IsOffsetSlot(bs, d)
    decreases i
  {
    if i > 0 {
      SlotsOfBlock(bs[1..], i - 1);
      assert bs[..i][0] == bs[0] && bs[..i][1..] == bs[1..][..i - 1];
      var n := 2 + |bs[0].ids|;
      assert |EncodeTail(bs[..i])| == n + |EncodeTail(bs[1..][..i - 1])|;
      assert bs[1..][i - 1] == bs[i];
    }
  }

  /** The offset slots of the copied words, one block at a time. */
  lemma SlotStep(bb: seq<Block>, j: nat)
    requires 1 <= j < |bb|
    ensures SlotPos(bb, j + 1) == SlotPos(bb, j) + 2 + |bb[j].ids|
    ensures Slot(bb, SlotPos(bb, j))
    ensures forall m :: SlotPos(bb, j) < m < SlotPos(bb, j + 1) ==> !Slot(bb, m)
  {
    var bs := bb[1..];
    assert bs[..j - 1] == bb[1..j] && bs[j - 1] == bb[j];
    SlotsOfBlock(bs, j - 1);
    var last := bb[j];
    assert bb[1..j + 1] == bb[1..j] + [last];
    EncodeTailAppend(bb[1..j], [last]);
    assert EncodeTail([last]) == [last.offset, |last.ids|] + last.ids + EncodeTail([]);
  }

  /** A blob split before block `j`: the words up to it and the words from it on. */
  lemma EncodeSplit(bb: seq<Block>, j: nat)
    requires 1 <= j <= |bb|
    ensures Encode(bb) == ([|bb[0].ids|] + bb[0].ids + EncodeTail(bb[1..j])) + (EncodeTail(bb[j..]) + [0])
  {
    assert bb[1..] == bb[1..j] + bb[j..];
    EncodeTailAppend(bb[1..j], bb[j..]);
  }

  /**
   * The words of a blob around block `j`: the word before it is its offset
   * (0, the end marker, once every block is read) and the next word its size.
   */
  lemma BlockWords(src: seq<int>, bb: seq<Block>, j: nat)
    requires ValidBlocks(bb) && src == Encode(bb) && 1 <= j <= |bb|
    ensures src[0] == |bb[0].ids| && SlotPos(bb, j) + 1 < |src|
    ensures j < |bb| ==> SlotPos(bb, j) + 4 + |bb[j].ids| <= |src|
    ensures j < |bb| ==> src[SlotPos(bb, j) + 1] == bb[j].offset != 0 && src[SlotPos(bb, j) + 2] == |bb[j].ids|
    ensures j == |bb| ==> src[SlotPos(bb, j) + 1] == 0 && SlotPos(bb, j) + 2 == |src|
  {
    EncodeSplit(bb, j);
    var q := EncodeTail(bb[j..]) + [0];
    if j < |bb| {
      assert bb[j..][0] == bb[j];
      assert q[0] == bb[j].offset && q[1] == |bb[j].ids| && |q| >= 3 + |bb[j].ids|;
    } else {
      assert q == [0];
    }
  }

  /**
   * One pass of the copy loop: the next block's offset moved by `aOffset`,
   * its size, and its ids, read at `src[from..]` and written at `data[to..]`.
   */
  method CopyBlock(src: seq<int>, from: nat, aOffset: int, data: array<int>, to: nat) returns (n: nat)
    requires from + 1 < |src| && src[from + 1] >= 0 && from + 2 + src[from + 1] <= |src|
    requires to + 2 + src[from + 1] <= data.Length
    modifies data
    ensures n == src[from + 1]
    ensures data[to] == src[from] + aOffset && data[to + 1] == n
    ensures forall k :: to + 2 <= k < to + 2 + n ==> data[k] == src[from + (k - to)]
    ensures forall k :: 0 <= k < data.Length && !(to <= k < to + 2 + n) ==> data[k] == old(data[k])
  {
    data[to] := src[from] + aOffset;
    n := src[from + 1];
    data[to + 1] := n;
    CopyInto(src, from + 2, data, to + 2, n);
  }

  /**
   * One pass of the copy loop over block `j` of the base's blob, which starts
   * at word `index + 1`: what it writes is the blob's words, with the offset
   * word (and only it) moved by `aOffset`.
   */
  method CopyNextBlock(src: seq<int>, ghost bb: seq<Block>, ghost j: nat, aOffset: int, data: array<int>, start: nat, index: nat)
      returns (n: nat)
    requires 1 <= j < |bb| && index == SlotPos(bb, j)
    requires index + 4 + |bb[j].ids| <= |src| && src[index + 2] == |bb[j].ids|
    requires start + |src| - 2 <= data.Length
    modifies data
    ensures n == |bb[j].ids| && index + 2 + n == SlotPos(bb, j + 1)
    ensures forall k :: start + index <= k < start + index + 2 + n ==>
      data[k] == src[k - start + 1] + (if Slot(bb, k - start) then aOffset else 0)
    ensures forall k :: 0 <= k < data.Length && !(start + index <= k < start + index + 2 + n) ==> data[k] == old(data[k])
  {
    SlotStep(bb, j);
    n := CopyBlock(src, index + 1, aOffset, data, start + index);
    forall k | start + index <= k < start + index + 2 + n
      ensures data[k] == src[k - start + 1] + (if Slot(bb, k - start) then aOffset else 0)
    {
      if k == start + index {
        assert Slot(bb, k - start);
      } else {
        assert !Slot(bb, k - start);
      }
    }
  }

  /**
   * `BaseTypeData<Base>::FillBaseTypeData`: reports the base's head size
   * through `sizeSlot` (the caller's `outHeadSize`), copies the head ids, then
   * walks the base's later blocks, writing each offset moved by `aOffset`,
   * each size and each id, until the base's 0 end marker, which is not copied.
   * `data[start..]` is `myData`, sized as the base's blob minus its size word
   * and its end marker.
   */
  method FillFromBase(src: seq<int>, ghost bb: seq<Block>, aOffset: int, data: array<int>, sizeSlot: nat, start: nat)
    requires ValidBlocks(bb) && src == Encode(bb)
    requires sizeSlot < start && start + |src| - 2 <= data.Length
    modifies data
    ensures data[sizeSlot] == |bb[0].ids|
    ensures data[start .. start + |src| - 2] == CopyWords(bb, aOffset)
    ensures forall k :: 0 <= k < data.Length && k != sizeSlot && !(start <= k < start + |src| - 2) ==> data[k] == old(data[k])
  {
    BlockWords(src, bb, 1);
    var size := src[0];
    data[sizeSlot] := size;
    CopyInto(src, 1, data, start, size);
    var index := size;
    var offset := src[index + 1];
    ghost var j := 1;
    while offset != 0
      invariant 1 <= j <= |bb| && index == SlotPos(bb, j)
      invariant index + 1 < |src| && offset == src[index + 1]
      invariant data[sizeSlot] == size
      invariant forall k :: start <= k < start + index ==>
        data[k] == src[k - start + 1] + (if Slot(bb, k - start) then aOffset else 0)
      invariant forall k :: 0 <= k < data.Length && k != sizeSlot && !(start <= k < start + |src| - 2) ==> data[k] == old(data[k])
      decreases |bb| - j
    {
      BlockWords(src, bb, j);
      label Step:
      var n := CopyNextBlock(src, bb, j, aOffset, data, start, index);
      forall k | start <= k < start + index
        ensures data[k] == src[k - start + 1] + (if Slot(bb, k - start) then aOffset else 0)
      {
        assert data[k] == old@Step(data[k]);
      }
      index := index + 2 + n;
      j := j + 1;
      BlockWords(src, bb, j);
      offset := src[index + 1];
    }
    BlockWords(src, bb, j);
    CopyWordwise(bb, aOffset);
    forall k | start <= k < start + |src| - 2
      ensures data[k] == CopyWords(bb, aOffset)[k - start]
    {
    }
  }

  // ---------------------------------------------------------------------
  // The constructor of `TypeDataImpl<Type, BaseTypes...>`

  /** The words of `myData` for one base: its blob minus the size word and the end marker; `enable_shared_from_this` has none. */
  function PieceSize(b: Base, src: seq<int>): nat
  {
    if b.Direct? && |src| >= 2 then |src| - 2 else 0
  }

  /** The words of the bases from the `k`-th on, each after the first with its `myOffset` and `mySize`. */
  function LaterSize(bases: seq<Base>, baseData: seq<seq<int>>, k: nat): nat
    requires |baseData| == |bases| && k <= |bases|
    decreases |bases| - k
  {
    if k == |bases| then 0 else 2 + PieceSize(bases[k], baseData[k]) + LaterSize(bases, baseData, k + 1)
  }

  /** `sizeof(TypeData<Type>)` in words: `mySize`, `myTypeId`, the bases' data and `myEndMarker`. */
  function DataSize(bases: seq<Base>, baseData: seq<seq<int>>): nat
    requires |baseData| == |bases|
  {
    if bases == [] then 3 else 3 + PieceSize(bases[0], baseData[0]) + LaterSize(bases, baseData, 1)
  }

  /** The offset each base is filled with: the first base its own offset (0 when it is the only base), every later base its `myOffset`. */
  function FillOffset(bases: seq<Base>, j: nat): int
    requires j < |bases|
  {
    if j == 0 then FirstFillOffset(bases) else bases[j].offset
  }

  /** The piece each base writes, in declaration order. */
  function Pieces(bases: seq<Base>, bbs: seq<seq<Block>>): (ps: seq<seq<int>>)
    requires BlocksFor(bases, bbs)
    ensures |ps| == |bases|
  {
    seq(|bases|, j requires 0 <= j < |bases| => Piece(bases[j], bbs[j], FillOffset(bases, j)))
  }

  /** The head size each base reports, in declaration order. */
  function HeadSizes(bases: seq<Base>, bbs: seq<seq<Block>>): (hs: seq<int>)
    requires BlocksFor(bases, bbs)
    ensures |hs| == |bases|
  {
    seq(|bases|, j requires 0 <= j < |bases| => HeadSize(bases[j], bbs[j]))
  }

  /** What the nested `BaseTypeData` members hold once the first `i` bases are filled, given each base's head size and piece. */
  function Written(bases: seq<Base>, hs: seq<int>, ps: seq<seq<int>>, i: nat): seq<int>
    requires |hs| == |bases| && |ps| == |bases| && 1 <= i <= |bases|
    decreases i
  {
    if i == 1 then ps[0]
    else Written(bases, hs, ps, i - 1) + ([bases[i - 1].offset, hs[i - 1]] + ps[i - 1])
  }

  /** Filling base `i` appends its `myOffset`, its `mySize` and its piece (`i'` is `i + 1`). */
  lemma WrittenStep(bases: seq<Base>, hs: seq<int>, ps: seq<seq<int>>, i: nat, i': nat)
    requires |hs| == |bases| && |ps| == |bases| && 1 <= i < |bases| && i' == i + 1
    ensures |Written(bases, hs, ps, i')| == |Written(bases, hs, ps, i)| + 2 + |ps[i]|
    ensures forall k :: 0 <= k < |Written(bases, hs, ps, i)| ==> Written(bases, hs, ps, i')[k] == Written(bases, hs, ps, i)[k]
    ensures Written(bases, hs, ps, i')[|Written(bases, hs, ps, i)|] == bases[i].offset
    ensures Written(bases, hs, ps, i')[|Written(bases, hs, ps, i)| + 1] == hs[i]
    ensures forall k :: |Written(bases, hs, ps, i)| + 2 <= k < |Written(bases, hs, ps, i')| ==>
      Written(bases, hs, ps, i')[k] == ps[i][k - |Written(bases, hs, ps, i)| - 2]
  {
    assert Written(bases, hs, ps, i') == Written(bases, hs, ps, i) + ([bases[i].offset, hs[i]] + ps[i]);
  }

  /** The words the bases write are the first base's piece and then the later bases' words. */
  lemma {:induction false} WrittenIsSecondary(bases: seq<Base>, bbs: seq<seq<Block>>, hs: seq<int>, ps: seq<seq<int>>, i: nat)
    requires BlocksFor(bases, bbs) && |hs| == |bases| && |ps| == |bases| && 1 <= i <= |bases|
    requires PiecesFrom(bases, bbs, hs, ps, 1)
    ensures Written(bases, hs, ps, i) == ps[0] + SecondaryWords(bases[1..i], bbs[1..i])
    decreases i
  {
    if i == 1 {
      assert bases[1..1] == [] && bbs[1..1] == [];
      assert ps[0] + [] == ps[0];
    } else {
      WrittenIsSecondary(bases, bbs, hs, ps, i - 1);
      PieceAt(bases, bbs, hs, ps, 1, i - 1);
      SecondaryPrefixSnoc(bases, bbs, i);
      SeqAssoc(ps[0], SecondaryWords(bases[1..i - 1], bbs[1..i - 1]), [bases[i - 1].offset, hs[i - 1]] + ps[i - 1]);
    }
  }

  /** The later bases' words up to base `i - 1` are those up to base `i - 2`, then base `i - 1`'s. */
  lemma SecondaryPrefixSnoc(bases: seq<Base>, bbs: seq<seq<Block>>, i: nat)
    requires BlocksFor(bases, bbs) && 2 <= i <= |bases|
    ensures SecondaryWords(bases[1..i], bbs[1..i]) == SecondaryWords(bases[1..i - 1], bbs[1..i - 1]) +
      ([bases[i - 1].offset, HeadSize(bases[i - 1], bbs[i - 1])] + Piece(bases[i - 1], bbs[i - 1], bases[i - 1].offset))
  {
    SliceSnoc(bases, i);
    SliceSnoc(bbs, i);
    SecondaryWordsSnoc(bases[1..i - 1], bbs[1..i - 1], bases[i - 1], bbs[i - 1]);
  }

  lemma SliceSnoc<T>(s: seq<T>, i: nat)
    requires 2 <= i <= |s|
    ensures s[1..i] == s[1..i - 1] + [s[i - 1]]
  {
  }

  /** The words handed to the constructor: for each registered base, the blob of its chain, which is a valid chain. */
  predicate BlobsFor(bases: seq<Base>, baseData: seq<seq<int>>, bbs: seq<seq<Block>>)
    decreases |bases|
  {
    && |baseData| == |bases| && |bbs| == |bases|
    && (bases != [] ==>
      && (bases[0].Direct? ==> ValidBlocks(bbs[0]) && baseData[0] == Encode(bbs[0]))
      && BlobsFor(bases[1..], baseData[1..], bbs[1..]))
  }

  lemma {:induction false} BlobAt(bases: seq<Base>, baseData: seq<seq<int>>, bbs: seq<seq<Block>>, i: nat)
    requires BlobsFor(bases, baseData, bbs) && i < |bases|
    ensures bases[i].Direct? ==> ValidBlocks(bbs[i]) && baseData[i] == Encode(bbs[i])
    decreases i
  {
    if i > 0 {
      BlobAt(bases[1..], baseData[1..], bbs[1..], i - 1);
      assert bases[1..][i - 1] == bases[i] && baseData[1..][i - 1] == baseData[i] && bbs[1..][i - 1] == bbs[i];
    }
  }

  /**
   * `FillBaseTypeData` of one base: a registered base reports its head size
   * through `sizeSlot` and copies its blob; `enable_shared_from_this` writes
   * nothing, so the zero-initialised slot stays 0.
   */
  method PlaceBase(b: Base, src: seq<int>, ghost bb: seq<Block>, aOffset: int, data: array<int>, sizeSlot: nat, start: nat,
                   ghost hsz: int, ghost piece: seq<int>)
    requires b.Direct? ==> ValidBlocks(bb) && src == Encode(bb)
    requires hsz == HeadSize(b, bb) && piece == Piece(b, bb, aOffset)
    requires sizeSlot < start && start + PieceSize(b, src) <= data.Length && data[sizeSlot] == 0
    modifies data
    ensures data[sizeSlot] == hsz && |piece| == PieceSize(b, src)
    ensures forall k :: start <= k < start + |piece| ==> data[k] == piece[k - start]
    ensures forall k :: 0 <= k < data.Length && k != sizeSlot && !(start <= k < start + |piece|) ==> data[k] == old(data[k])
  {
    if b.Direct? {
      CopyWordwise(bb, aOffset);
      FillFromBase(src, bb, aOffset, data, sizeSlot, start);
      forall k | start <= k < start + |piece|
        ensures data[k] == piece[k - start]
      {
        assert data[k] == data[start .. start + |src| - 2][k - start];
      }
    }
  }

  /** The finished blob: head size, id, what the bases wrote, end marker. */
  lemma WrittenAll(id: int, bases: seq<Base>, bbs: seq<seq<Block>>)
    requires BlocksFor(bases, bbs) && 1 <= |bases|
    ensures Encode(Assemble(id, bases, bbs)) ==
      [1 + HeadSize(bases[0], bbs[0]), id] + Written(bases, HeadSizes(bases, bbs), Pieces(bases, bbs), |bases|) + [0]
  {
    var first := Piece(bases[0], bbs[0], FirstFillOffset(bases));
    var later := SecondaryWords(bases[1..], bbs[1..]);
    AssembleWords(id, bases, bbs);
    assert Written(bases, HeadSizes(bases, bbs), Pieces(bases, bbs), |bases|) == first + later by {
      PiecesFromAll(bases, bbs, 1);
      WrittenIsSecondary(bases, bbs, HeadSizes(bases, bbs), Pieces(bases, bbs), |bases|);
      assert Pieces(bases, bbs)[0] == first;
      WholeTail(bases);
      WholeTail(bbs);
    }
    SeqAssoc([1 + HeadSize(bases[0], bbs[0]), id], first, later);
  }

  lemma WholeTail<T>(s: seq<T>)
    requires |s| >= 1
    ensures s[1..|s|] == s[1..]
  {
  }

  /** The head sizes and pieces of the bases from the `j`-th on, each filled with its own `myOffset`. */
  predicate PiecesFrom(bases: seq<Base>, bbs: seq<seq<Block>>, hs: seq<int>, ps: seq<seq<int>>, j: nat)
    requires BlocksFor(bases, bbs) && |hs| == |bases| && |ps| == |bases| && j <= |bases|
    decreases |bases| - j
  {
    j == |bases| ||
      (hs[j] == HeadSize(bases[j], bbs[j]) && ps[j] == Piece(bases[j], bbs[j], bases[j].offset)
       && PiecesFrom(bases, bbs, hs, ps, j + 1))
  }

  lemma {:induction false} PieceAt(bases: seq<Base>, bbs: seq<seq<Block>>, hs: seq<int>, ps: seq<seq<int>>, j: nat, i: nat)
    requires BlocksFor(bases, bbs) && |hs| == |bases| && |ps| == |bases| && j <= i < |bases|
    requires PiecesFrom(bases, bbs, hs, ps, j)
    ensures hs[i] == HeadSize(bases[i], bbs[i]) && ps[i] == Piece(bases[i], bbs[i], bases[i].offset)
    decreases i - j
  {
    if j < i {
      PieceAt(bases, bbs, hs, ps, j + 1, i);
    }
  }

  lemma {:induction false} PiecesFromAll(bases: seq<Base>, bbs: seq<seq<Block>>, j: nat)
    requires BlocksFor(bases, bbs) && 1 <= j <= |bases|
    ensures PiecesFrom(bases, bbs, HeadSizes(bases, bbs), Pieces(bases, bbs), j)
    decreases |bases| - j
  {
    if j < |bases| {
      PiecesFromAll(bases, bbs, j + 1);
    }
  }

  /**
   * One step of the nested `FillBaseTypeData` calls: `myOffset` of base `i`,
   * then base `i` filled with that offset, reporting its head size into the
   * `mySize` right after it.
   */
  method PlaceLater(bases: seq<Base>, baseData: seq<seq<int>>, ghost bbs: seq<seq<Block>>,
                    ghost hs: seq<int>, ghost ps: seq<seq<int>>, i: nat, data: array<int>, pos: nat)
      returns (next: nat)
    requires BlocksFor(bases, bbs) && BlobsFor(bases, baseData, bbs) && 1 <= i < |bases|
    requires |hs| == |bases| && |ps| == |bases| && PiecesFrom(bases, bbs, hs, ps, 1)
    requires pos + 2 + PieceSize(bases[i], baseData[i]) <= data.Length && data[pos + 1] == 0
    modifies data
    ensures next == pos + 2 + |ps[i]| && |ps[i]| == PieceSize(bases[i], baseData[i])
    ensures data[pos] == bases[i].offset && data[pos + 1] == hs[i]
    ensures forall k :: pos + 2 <= k < next ==> data[k] == ps[i][k - pos - 2]
    ensures forall k :: 0 <= k < data.Length && !(pos <= k < next) ==> data[k] == old(data[k])
  {
    data[pos] := bases[i].offset;
    PlaceNth(bases, baseData, bbs, hs, ps, i, data, pos + 1, pos + 2);
    next := pos + 2 + PieceSize(bases[i], baseData[i]);
  }

  /** Base `i` (not the first) filled with its own `myOffset`, reporting its head size into `sizeSlot`. */
  method PlaceNth(bases: seq<Base>, baseData: seq<seq<int>>, ghost bbs: seq<seq<Block>>,
                  ghost hs: seq<int>, ghost ps: seq<seq<int>>, i: nat, data: array<int>, sizeSlot: nat, start: nat)
    requires BlocksFor(bases, bbs) && BlobsFor(bases, baseData, bbs) && 1 <= i < |bases|
    requires |hs| == |bases| && |ps| == |bases| && PiecesFrom(bases, bbs, hs, ps, 1)
    requires sizeSlot < start && start + PieceSize(bases[i], baseData[i]) <= data.Length && data[sizeSlot] == 0
    modifies data
    ensures data[sizeSlot] == hs[i] && |ps[i]| == PieceSize(bases[i], baseData[i])
    ensures forall k :: start <= k < start + |ps[i]| ==> data[k] == ps[i][k - start]
    ensures forall k :: 0 <= k < data.Length && k != sizeSlot && !(start <= k < start + |ps[i]|) ==> data[k] == old(data[k])
  {
    PieceAt(bases, bbs, hs, ps, 1, i);
    BlobAt(bases, baseData, bbs, i);
    PlaceBase(bases[i], baseData[i], bbs[i], bases[i].offset, data, sizeSlot, start, hs[i], ps[i]);
  }

  /**
   * The bases after the first, in declaration order, each after the words
   * already written (`pos0` is where the first base's piece ends).
   */
  method PlaceLaterBases(bases: seq<Base>, baseData: seq<seq<int>>, ghost bbs: seq<seq<Block>>,
                         ghost hs: seq<int>, ghost ps: seq<seq<int>>, data: array<int>, pos0: nat)
      returns (pos: nat)
    requires BlocksFor(bases, bbs) && BlobsFor(bases, baseData, bbs) && 1 <= |bases|
    requires |hs| == |bases| && |ps| == |bases| && PiecesFrom(bases, bbs, hs, ps, 1)
    requires pos0 == 2 + |ps[0]| && pos0 + LaterSize(bases, baseData, 1) <= data.Length
    requires forall k :: 2 <= k < pos0 ==> data[k] == ps[0][k - 2]
    requires forall k :: pos0 <= k < data.Length ==> data[k] == 0
    modifies data
    ensures pos == 2 + |Written(bases, hs, ps, |bases|)| && pos == pos0 + LaterSize(bases, baseData, 1)
    ensures data[0] == old(data[0]) && data[1] == old(data[1])
    ensures forall k :: 2 <= k < pos ==> data[k] == Written(bases, hs, ps, |bases|)[k - 2]
    ensures forall k :: pos <= k < data.Length ==> data[k] == 0
  {
    pos := pos0;
    var i := 1;
    while i < |bases|
      invariant 1 <= i <= |bases| && pos == 2 + |Written(bases, hs, ps, i)|
      invariant pos + LaterSize(bases, baseData, i) == pos0 + LaterSize(bases, baseData, 1) <= data.Length
      invariant data[0] == old(data[0]) && data[1] == old(data[1])
      invariant forall k :: 2 <= k < pos ==> data[k] == Written(bases, hs, ps, i)[k - 2]
      invariant forall k :: pos <= k < data.Length ==> data[k] == 0
    {
      label Before:
      var next := PlaceLater(bases, baseData, bbs, hs, ps, i, data, pos);
      WrittenStep(bases, hs, ps, i, i + 1);
      forall k | 2 <= k < next
        ensures data[k] == Written(bases, hs, ps, i + 1)[k - 2]
      {
        if k < pos {
          assert data[k] == old@Before(data[k]);
        }
      }
      pos := next;
      i := i + 1;
    }
  }

  /** The first base, filled with `FirstFillOffset`, reports its head size into `mySize` (word 0) and writes its piece from word 2 on. */
  method PlaceFirst(bases: seq<Base>, baseData: seq<seq<int>>, ghost bbs: seq<seq<Block>>,
                    ghost hs: seq<int>, ghost ps: seq<seq<int>>, data: array<int>)
    requires BlocksFor(bases, bbs) && BlobsFor(bases, baseData, bbs) && 1 <= |bases|
    requires hs == HeadSizes(bases, bbs) && ps == Pieces(bases, bbs)
    requires 2 + PieceSize(bases[0], baseData[0]) <= data.Length && data[0] == 0
    modifies data
    ensures |ps[0]| == PieceSize(bases[0], baseData[0]) && data[0] == hs[0] == HeadSize(bases[0], bbs[0])
    ensures forall k :: 2 <= k < 2 + |ps[0]| ==> data[k] == ps[0][k - 2]
    ensures forall k :: 0 < k < data.Length && !(2 <= k < 2 + |ps[0]|) ==> data[k] == old(data[k])
  {
    BlobAt(bases, baseData, bbs, 0);
    var firstOffset := if |bases| == 1 then 0 else bases[0].offset;
    assert hs[0] == HeadSize(bases[0], bbs[0]) && ps[0] == Piece(bases[0], bbs[0], firstOffset);
    PlaceBase(bases[0], baseData[0], bbs[0], firstOffset, data, 0, 2, hs[0], ps[0]);
  }

  /** An array's words framed by two leading words and one trailing word. */
  lemma Framed(d: seq<int>, size: int, id: int, w: seq<int>)
    requires |d| == |w| + 3 && d[0] == size && d[1] == id && d[|w| + 2] == 0
    requires forall k :: 2 <= k < |w| + 2 ==> d[k] == w[k - 2]
    ensures d == [size, id] + w + [0]
  {
  }

  /**
   * `TypeDataImpl()` on zero-initialised static storage: `myTypeId` is the
   * id just generated (passed in), the bases are filled in declaration order
   * (the first with its own offset, or 0 when it is the only base), `mySize`
   * is incremented past the base's head size and `myEndMarker` is set to 0.
   * `baseData[i]` is the blob of base `i`, already built from `bbs[i]`.
   */
  method BuildTypeData(id: int, bases: seq<Base>, baseData: seq<seq<int>>, ghost bbs: seq<seq<Block>>) returns (data: array<int>)
    requires BlocksFor(bases, bbs) && BlobsFor(bases, baseData, bbs)
    ensures fresh(data) && data[..] == Encode(Assemble(id, bases, bbs))
  {
    if bases == [] {
      data := new int[3](_ => 0);
      data[0], data[1], data[2] := 1, id, 0;
      assert data[..] == [1, id, 0];
      return;
    }
    ghost var hs, ps := HeadSizes(bases, bbs), Pieces(bases, bbs);
    data := new int[DataSize(bases, baseData)](_ => 0);
    data[1] := id;
    PlaceFirst(bases, baseData, bbs, hs, ps, data);
    PiecesFromAll(bases, bbs, 1);
    var pos := PlaceLaterBases(bases, baseData, bbs, hs, ps, data, 2 + PieceSize(bases[0], baseData[0]));
    data[0] := data[0] + 1;
    data[pos] := 0;
    Framed(data[..], 1 + HeadSize(bases[0], bbs[0]), id, Written(bases, hs, ps, |bases|));
    WrittenAll(id, bases, bbs);
  }
}
