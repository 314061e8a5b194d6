/**
 * The hierarchy blob of a type descriptor, as a sequence of words.
 *
 * A blob is a chain of blocks. Each block is written as its size, its type
 * ids, and then the word that follows it: the pointer offset of the NEXT
 * block, or 0 when there is no next block. The head block has no offset word
 * of its own; its offset is implicitly 0, which is what lets 0 double as the
 * end marker.
 *
 * Words are unbounded integers here: the 32-bit type ids and sizes and the
 * pointer-sized offsets of the packed byte layout all become one `int` each.
 */
module Blob {
  import opened Wrappers

  /** One block: the ids reachable through one base, and the pointer offset of that base. */
  datatype Block = Block(offset: int, ids: seq<int>)

  /** Every block after the head, each written as `[offset, size] + ids`. */
  function EncodeTail(bs: seq<Block>): seq<int>
  {
    if bs == [] then [] else [bs[0].offset, |bs[0].ids|] + bs[0].ids + EncodeTail(bs[1..])
  }

  /** The blob of a block chain: head size and ids, the later blocks, and the 0 end marker. */
  function Encode(bs: seq<Block>): (w: seq<int>)
    requires |bs| >= 1
    ensures |w| >= |bs[0].ids| + 2 && w[0] == |bs[0].ids| && w[|w| - 1] == 0
    ensures w[1..|bs[0].ids| + 1] == bs[0].ids
  {
    [|bs[0].ids|] + bs[0].ids + EncodeTail(bs[1..]) + [0]
  }

  /**
   * A chain the blob format can represent: the head block sits at offset 0
   * and no later block has offset 0, since 0 ends the blob.
   */
  predicate ValidBlocks(bs: seq<Block>)
  {
    |bs| >= 1 && bs[0].offset == 0 && forall i :: 1 <= i < |bs| ==> bs[i].offset != 0
  }

  /** Reads the block starting at word `pos`, whose offset is `offset`, and every block chained after it. */
  function DecodeFrom(w: seq<int>, pos: nat, offset: int): (r: Option<seq<Block>>)
    ensures r.Some? ==> |r.value| >= 1 && r.value[0].offset == offset
    ensures r.Some? ==> forall i :: 1 <= i < |r.value| ==> r.value[i].offset != 0
    ensures r.Some? ==> pos + 2 <= |w|
    decreases |w| - pos
  {
    if pos >= |w| || w[pos] < 0 || pos + w[pos] + 1 >= |w| then None
    else
      var size := w[pos];
      var block := Block(offset, w[pos + 1 .. pos + 1 + size]);
      var next := w[pos + 1 + size];
      if next == 0 then
        if pos + size + 2 == |w| then Some([block]) else None
      else
        match DecodeFrom(w, pos + size + 2, next)
        case None => None
        case Some(rest) => Some([block] + rest)
  }

  /** The block chain a blob encodes, or None when the words are not a blob. */
  function Decode(w: seq<int>): Option<seq<Block>>
  {
    DecodeFrom(w, 0, 0)
  }

  /** Offsets of every block moved by `d`; the ids are unchanged. */
  function Shift(bs: seq<Block>, d: int): (r: seq<Block>)
    ensures |r| == |bs|
    ensures forall i :: 0 <= i < |bs| ==> r[i].offset == bs[i].offset + d && r[i].ids == bs[i].ids
  {
    seq(|bs|, i requires 0 <= i < |bs| => Block(bs[i].offset + d, bs[i].ids))
  }

  // ---------------------------------------------------------------------
  // Encoding and decoding are inverse

  lemma EncodeUnfold(bs: seq<Block>)
    requires |bs| >= 2
    ensures Encode(bs) == [|bs[0].ids|] + bs[0].ids + [bs[1].offset] + Encode(bs[1..])
  {
    assert bs[1..][1..] == bs[2..];
  }

  /** One step of decoding: the block at `pos` followed by what `next` says. */
  lemma DecodeStep(w: seq<int>, pos: nat, offset: int, ids: seq<int>, next: int)
    requires pos + |ids| + 1 < |w| && w[pos] == |ids|
    requires w[pos + 1 .. pos + 1 + |ids|] == ids && w[pos + 1 + |ids|] == next
    ensures next == 0 && pos + |ids| + 2 == |w| ==> DecodeFrom(w, pos, offset) == Some([Block(offset, ids)])
    ensures next != 0 && DecodeFrom(w, pos + |ids| + 2, next).Some? ==>
      DecodeFrom(w, pos, offset) == Some([Block(offset, ids)] + DecodeFrom(w, pos + |ids| + 2, next).value)
  {
  }

  lemma {:induction false} DecodeEncodeFrom(pre: seq<int>, bs: seq<Block>)
    requires |bs| >= 1 && forall i :: 1 <= i < |bs| ==> bs[i].offset != 0
    ensures DecodeFrom(pre + Encode(bs), |pre|, bs[0].offset) == Some(bs)
    decreases |bs|
  {
    var ids, pos, w := bs[0].ids, |pre|, pre + Encode(bs);
    EncodeAt(pre, bs);
    if |bs| == 1 {
      DecodeStep(w, pos, bs[0].offset, ids, 0);
      assert bs == [Block(bs[0].offset, ids)];
    } else {
      var next := bs[1].offset;
      var pre' := pre + [|ids|] + ids + [next];
      EncodeRest(pre, bs);
      DecodeEncodeFrom(pre', bs[1..]);
      DecodeStep(w, pos, bs[0].offset, ids, next);
      assert bs == [Block(bs[0].offset, ids)] + bs[1..];
    }
  }

  /** The head block of an encoded chain, read after `pre`: its size, its ids and the word after them. */
  lemma EncodeAt(pre: seq<int>, bs: seq<Block>)
    requires |bs| >= 1
    ensures var w, pos, ids := pre + Encode(bs), |pre|, bs[0].ids;
      && pos + |ids| + 1 < |w| && w[pos] == |ids| && w[pos + 1 .. pos + 1 + |ids|] == ids
      && w[pos + 1 + |ids|] == (if |bs| == 1 then 0 else bs[1].offset)
      && (|bs| == 1 ==> |w| == pos + |ids| + 2)
  {
    var ids := bs[0].ids;
    var w := pre + Encode(bs);
    var tail := EncodeTail(bs[1..]) + [0];
    assert w == pre + [|ids|] + ids + tail;
    if |bs| > 1 {
      assert bs[1..][0] == bs[1];
    }
  }

  /** After the head block and the offset word of the second, an encoded chain goes on as the encoding of the rest. */
  lemma EncodeRest(pre: seq<int>, bs: seq<Block>)
    requires |bs| >= 2
    ensures pre + Encode(bs) == (pre + [|bs[0].ids|] + bs[0].ids + [bs[1].offset]) + Encode(bs[1..])
  {
    EncodeUnfold(bs);
  }

  /** Decoding an encoded valid chain gives the chain back. */
  lemma DecodeEncode(bs: seq<Block>)
    requires ValidBlocks(bs)
    ensures Decode(Encode(bs)) == Some(bs)
  {
    DecodeEncodeFrom([], bs);
    assert [] + Encode(bs) == Encode(bs);
  }

  lemma {:induction false} EncodeDecodeFrom(w: seq<int>, pos: nat, offset: int)
    requires DecodeFrom(w, pos, offset).Some?
    ensures pos <= |w| && w[pos..] == Encode(DecodeFrom(w, pos, offset).value)
    decreases |w| - pos
  {
    var bs := DecodeFrom(w, pos, offset).value;
    DecodeUnfold(w, pos, offset);
    var size := w[pos];
    var next := w[pos + 1 + size];
    SliceSplit(w, pos, size);
    if next == 0 {
      assert bs[1..] == [];
    } else {
      var rest := DecodeFrom(w, pos + size + 2, next).value;
      assert bs[1..] == rest;
      EncodeDecodeFrom(w, pos + size + 2, next);
      EncodeUnfold(bs);
    }
  }

  /** What a successful read of the block at `pos` consists of. */
  lemma DecodeUnfold(w: seq<int>, pos: nat, offset: int)
    requires DecodeFrom(w, pos, offset).Some?
    ensures var bs, size := DecodeFrom(w, pos, offset).value, w[pos];
      && 0 <= size && pos + size + 1 < |w| && bs[0] == Block(offset, w[pos + 1 .. pos + 1 + size])
      && (w[pos + 1 + size] == 0 ==> |bs| == 1 && pos + size + 2 == |w|)
      && (w[pos + 1 + size] != 0 ==> DecodeFrom(w, pos + size + 2, w[pos + 1 + size]).Some?)
      && (w[pos + 1 + size] != 0 ==> bs == [bs[0]] + DecodeFrom(w, pos + size + 2, w[pos + 1 + size]).value)
  {
  }

  /** The words from `pos` on: a size word, `size` words, one more word, and the rest. */
  lemma SliceSplit(w: seq<int>, pos: nat, size: nat)
    requires pos + size + 1 < |w|
    ensures w[pos..] == [w[pos]] + w[pos + 1 .. pos + 1 + size] + [w[pos + 1 + size]] + w[pos + size + 2..]
  {
  }

  /** A blob that decodes is exactly the encoding of what it decodes to. */
  lemma EncodeDecode(w: seq<int>)
    requires Decode(w).Some?
    ensures ValidBlocks(Decode(w).value) && Encode(Decode(w).value) == w
  {
    EncodeDecodeFrom(w, 0, 0);
  }

  // ---------------------------------------------------------------------
  // What a cast finds: the first block holding the target id

  /** The offset of the first block, head to tail, whose ids contain `x`. */
  function FindBlock(bs: seq<Block>, x: int): (r: Option<int>)
    ensures r.Some? <==> exists i :: 0 <= i < |bs| && x in bs[i].ids
  {
    if bs == [] then None
    else if x in bs[0].ids then Some(bs[0].offset)
    else
      var r := FindBlock(bs[1..], x);
      assert forall i :: 1 <= i < |bs| ==> bs[i] == bs[1..][i - 1];
      r
  }

  /** The address a cast of `ptr` yields on the chain `bs`: the pointer moved to the block found, or 0 (null). */
  function CastResult(bs: seq<Block>, ptr: int, x: int): int
  {
    match FindBlock(bs, x)
    case Some(o) => ptr + o
    case None => 0
  }

  // ---------------------------------------------------------------------
  // The blob flattened to (id, offset) entries in scan order

  datatype Entry = Entry(id: int, offset: int)

  /** The entries of one block, in the order the cast scans them. */
  function Tag(b: Block): (es: seq<Entry>)
    ensures |es| == |b.ids|
    ensures forall k :: 0 <= k < |b.ids| ==> es[k] == Entry(b.ids[k], b.offset)
  {
    seq(|b.ids|, k requires 0 <= k < |b.ids| => Entry(b.ids[k], b.offset))
  }

  function Flat(bs: seq<Block>): seq<Entry>
  {
    if bs == [] then [] else Tag(bs[0]) + Flat(bs[1..])
  }

  /** The offset of the first entry naming `x`. */
  function FirstMatch(es: seq<Entry>, x: int): Option<int>
  {
    if es == [] then None
    else if es[0].id == x then Some(es[0].offset)
    else FirstMatch(es[1..], x)
  }

  function ShiftEntries(es: seq<Entry>, d: int): (r: seq<Entry>)
    ensures |r| == |es|
    ensures forall i :: 0 <= i < |es| ==> r[i] == Entry(es[i].id, es[i].offset + d)
  {
    seq(|es|, i requires 0 <= i < |es| => Entry(es[i].id, es[i].offset + d))
  }

  lemma {:induction false} FirstMatchAppend(a: seq<Entry>, b: seq<Entry>, x: int)
    ensures FirstMatch(a + b, x) == if FirstMatch(a, x).Some? then FirstMatch(a, x) else FirstMatch(b, x)
  {
    if a != [] {
      assert (a + b)[1..] == a[1..] + b;
      FirstMatchAppend(a[1..], b, x);
    } else {
      assert a + b == b;
    }
  }

  lemma {:induction false} FirstMatchTag(b: Block, x: int)
    ensures FirstMatch(Tag(b), x) == if x in b.ids then Some(b.offset) else None
    decreases |b.ids|
  {
    if b.ids != [] {
      assert Tag(b)[1..] == Tag(Block(b.offset, b.ids[1..]));
      FirstMatchTag(Block(b.offset, b.ids[1..]), x);
      assert x in b.ids <==> x == b.ids[0] || x in b.ids[1..];
    }
  }

  /** Scanning blocks then ids within a block finds the same offset as scanning the flattened entries. */
  lemma {:induction false} FindBlockIsFirstMatch(bs: seq<Block>, x: int)
    ensures FindBlock(bs, x) == FirstMatch(Flat(bs), x)
  {
    if bs != [] {
      FirstMatchAppend(Tag(bs[0]), Flat(bs[1..]), x);
      FirstMatchTag(bs[0], x);
      FindBlockIsFirstMatch(bs[1..], x);
    }
  }

  lemma {:induction false} FlatAppend(a: seq<Block>, b: seq<Block>)
    ensures Flat(a + b) == Flat(a) + Flat(b)
  {
    if a == [] {
      assert a + b == b;
    } else {
      assert (a + b)[0] == a[0] && (a + b)[1..] == a[1..] + b;
      FlatAppend(a[1..], b);
    }
  }

  lemma {:induction false} FlatShift(bs: seq<Block>, d: int)
    ensures Flat(Shift(bs, d)) == ShiftEntries(Flat(bs), d)
  {
    if bs != [] {
      assert Shift(bs, d)[1..] == Shift(bs[1..], d);
      FlatShift(bs[1..], d);
      assert Tag(Shift(bs, d)[0]) == ShiftEntries(Tag(bs[0]), d);
      ShiftEntriesAppend(Tag(bs[0]), Flat(bs[1..]), d);
    }
  }

  lemma ShiftEntriesAppend(a: seq<Entry>, b: seq<Entry>, d: int)
    ensures ShiftEntries(a + b, d) == ShiftEntries(a, d) + ShiftEntries(b, d)
  {
  }
}
