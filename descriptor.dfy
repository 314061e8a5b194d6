/**
 * The public type descriptor (`TypeInfo`): a display name and, right after
 * it, the hierarchy blob. It answers three questions: the type's id, whether
 * two descriptors are the same type, and the cast scan over the blob.
 */
module Descriptor {
  import opened Wrappers
  import opened Blob

  /** A descriptor: `myName` and the `TypeData` words that follow it in memory. */
  datatype TypeInfo = TypeInfo(name: string, data: seq<int>)

  /** `GetTypeId`: the word right after the head size, which is the type's own id, first in the head block. */
  function GetTypeId(info: TypeInfo): (id: int)
    requires |info.data| >= 2
    ensures Decode(info.data).Some? && |Decode(info.data).value[0].ids| >= 1 ==> id == Decode(info.data).value[0].ids[0]
  {
    info.data[1]
  }

  /** `operator==` (and, negated, `operator!=`): descriptors are compared by the id word only; names play no part. */
  predicate SameType(a: TypeInfo, b: TypeInfo)
    requires |a.data| >= 2 && |b.data| >= 2
    ensures SameType(a, b) <==> a.data[1] == b.data[1]
  {
    GetTypeId(a) == GetTypeId(b)
  }

  /**
   * `TypeInfo::CastTo`: walks the blob block by block, comparing every id of a
   * block with `aTypeId`. On the first hit it returns `aPtr` moved by the
   * offset of the block being scanned (0 for the head block); on reaching a 0
   * offset word it returns 0. Word indices stand for the source's byte index.
   */
  method CastTo(data: seq<int>, aPtr: int, aTypeId: int) returns (r: int)
    requires Decode(data).Some?
    ensures r == CastResult(Decode(data).value, aPtr, aTypeId)
  {
    ghost var expected := CastResult(Decode(data).value, aPtr, aTypeId);
    var index := 0;
    var offset := 0;
    while true
      invariant DecodeFrom(data, index, offset).Some?
      invariant CastResult(DecodeFrom(data, index, offset).value, aPtr, aTypeId) == expected
      decreases |data| - index
    {
      ghost var blocks := DecodeFrom(data, index, offset).value;
      ghost var start := index;
      var size := data[index];
      index := index + 1;
      var i := 0;
      while i < size
        invariant 0 <= i <= size && index == start + 1 + i
        invariant aTypeId !in data[start + 1 .. index]
      {
        if data[index] == aTypeId {
          assert aTypeId in blocks[0].ids;
          return aPtr + offset;
        }
        assert data[start + 1 .. index + 1] == data[start + 1 .. index] + [data[index]];
        i := i + 1;
        index := index + 1;
      }
      assert aTypeId !in blocks[0].ids;
      offset := data[index];
      if offset == 0 {
        assert |blocks| == 1;
        return 0;
      }
      index := index + 1;
      assert blocks == [blocks[0]] + DecodeFrom(data, index, offset).value;
    }
  }

  /**
   * What the scan returns, stated without the scan: the pointer moved by the
   * offset of the earliest block holding the id, or 0 when no block holds it
   * (for a non-null pointer and non-negative offsets, 0 means exactly that).
   */
  lemma {:induction false} CastResultFirst(bs: seq<Block>, ptr: int, x: int)
    ensures (forall i :: 0 <= i < |bs| ==> x !in bs[i].ids) ==> CastResult(bs, ptr, x) == 0
    ensures forall i :: 0 <= i < |bs| && x in bs[i].ids && (forall j :: 0 <= j < i ==> x !in bs[j].ids) ==>
      CastResult(bs, ptr, x) == ptr + bs[i].offset
  {
    forall i | 0 <= i < |bs| && x in bs[i].ids && (forall j :: 0 <= j < i ==> x !in bs[j].ids)
      ensures CastResult(bs, ptr, x) == ptr + bs[i].offset
    {
      FindFirstHolder(bs, x, i);
    }
  }

  /** The search stops at the earliest block holding `x`. */
  lemma {:induction false} FindFirstHolder(bs: seq<Block>, x: int, i: nat)
    requires i < |bs| && x in bs[i].ids && forall j :: 0 <= j < i ==> x !in bs[j].ids
    ensures FindBlock(bs, x) == Some(bs[i].offset)
  {
    if i > 0 {
      assert x !in bs[0].ids;
      assert bs[1..][i - 1] == bs[i];
      forall j | 0 <= j < i - 1
        ensures x !in bs[1..][j].ids
      {
        assert bs[1..][j] == bs[j + 1];
      }
      FindFirstHolder(bs[1..], x, i - 1);
    }
  }

  /** With a non-null pointer and non-negative offsets, the scan yields null exactly when no block holds the id. */
  lemma CastNullIffAbsent(bs: seq<Block>, ptr: int, x: int)
    requires ptr > 0 && forall i :: 0 <= i < |bs| ==> bs[i].offset >= 0
    ensures CastResult(bs, ptr, x) == 0 <==> forall i :: 0 <= i < |bs| ==> x !in bs[i].ids
  {
    CastResultFirst(bs, ptr, x);
    if exists i :: 0 <= i < |bs| && x in bs[i].ids {
      var i := FirstHolder(bs, x);
    }
  }

  /** The index of the earliest block holding `x`. */
  lemma {:induction false} FirstHolder(bs: seq<Block>, x: int) returns (i: nat)
    requires exists i :: 0 <= i < |bs| && x in bs[i].ids
    ensures i < |bs| && x in bs[i].ids && forall j :: 0 <= j < i ==> x !in bs[j].ids
  {
    if x in bs[0].ids {
      i := 0;
    } else {
      var k :| 0 <= k < |bs| && x in bs[k].ids;
      assert bs[1..][k - 1] == bs[k];
      var i' := FirstHolder(bs[1..], x);
      i := i' + 1;
      forall j | 0 <= j < i
        ensures x !in bs[j].ids
      {
        if j > 0 {
          assert bs[j] == bs[1..][j - 1];
        }
      }
    }
  }
}
