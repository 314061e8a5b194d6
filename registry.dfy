/**
 * The lazily built descriptors: `GetTypeInfo<T>::Get()` builds the static
 * `TypeInfoImpl<T>` on its first call and returns it ever after, and
 * `GenerateId` hands out ids from one counter. Building a descriptor
 * generates the type's own id first and then fetches (and so, if needed,
 * builds) the descriptor of each direct base in declaration order.
 */
module Registry {
  import opened Wrappers
  import opened Blob
  import opened Inheritance
  import opened Builder
  import opened Soundness
  import opened Descriptor
  import opened Fill
  import opened Casting

  /**
   * Every registered type below `n` has as descriptor its name and the blob
   * built from the ids handed out (stated type by type, downwards from `n`).
   */
  ghost predicate Describes(h: Hierarchy, ids: map<nat, int>, infos: map<nat, TypeInfo>, n: nat)
    requires Shaped(h) && Closed(h, ids.Keys)
    decreases n
  {
    n == 0 ||
      (Describes(h, ids, infos, n - 1) &&
       (n - 1 in infos ==> n - 1 in ids && infos[n - 1] == TypeInfo(h[n - 1].name, TypeData(h, ids, n - 1))))
  }

  lemma {:induction false} DescribesAt(h: Hierarchy, ids: map<nat, int>, infos: map<nat, TypeInfo>, n: nat, u: nat)
    requires Shaped(h) && Closed(h, ids.Keys) && Describes(h, ids, infos, n) && u < n && u in infos
    ensures u in ids && infos[u] == TypeInfo(h[u].name, TypeData(h, ids, u))
    decreases n
  {
    if u < n - 1 {
      DescribesAt(h, ids, infos, n - 1, u);
    }
  }

  lemma {:induction false} DescribesNone(h: Hierarchy, ids: map<nat, int>, n: nat)
    requires Shaped(h) && Closed(h, ids.Keys)
    ensures Describes(h, ids, map[], n)
    decreases n
  {
    if n > 0 {
      DescribesNone(h, ids, n - 1);
    }
  }

  /** Ids handed out later leave every descriptor built earlier as it was. */
  lemma {:induction false} DescribesFrame(h: Hierarchy, ids: map<nat, int>, ids': map<nat, int>, infos: map<nat, TypeInfo>, n: nat)
    requires Shaped(h) && Closed(h, ids.Keys) && Closed(h, ids'.Keys) && Extends(ids, ids')
    requires Describes(h, ids, infos, n)
    ensures Describes(h, ids', infos, n)
    decreases n
  {
    if n > 0 {
      DescribesFrame(h, ids, ids', infos, n - 1);
      if n - 1 in infos {
        TypeBlocksFrame(h, ids, ids', n - 1);
      }
    }
  }

  /** Registering the descriptor of `t` keeps every other type's. */
  lemma {:induction false} DescribesAdd(h: Hierarchy, ids: map<nat, int>, infos: map<nat, TypeInfo>, n: nat, t: nat, info: TypeInfo)
    requires Shaped(h) && Closed(h, ids.Keys) && Describes(h, ids, infos, n)
    requires t in ids && info == TypeInfo(h[t].name, TypeData(h, ids, t))
    ensures Describes(h, ids, infos[t := info], n)
    decreases n
  {
    if n > 0 {
      DescribesAdd(h, ids, infos, n - 1, t, info);
    }
  }

  /** What the registry hands the constructor of `t`: the blob of each registered direct base, read from its descriptor. */
  lemma BaseBlobs(h: Hierarchy, ids: map<nat, int>, infos: map<nat, TypeInfo>, t: nat, baseData: seq<seq<int>>)
    requires WellFormed(h) && Closed(h, ids.Keys) && t in ids && Describes(h, ids, infos, |h|)
    requires |baseData| == |h[t].bases|
    requires forall j :: 0 <= j < |h[t].bases| && h[t].bases[j].Direct? ==>
      h[t].bases[j].base in infos && baseData[j] == infos[h[t].bases[j].base].data
    ensures BlobsFor(h[t].bases, baseData, BaseBlocks(h, ids, t, 0))
  {
    var bases, bbs := h[t].bases, BaseBlocks(h, ids, t, 0);
    assert bases[0..] == bases;
    forall j | 0 <= j < |bases| && bases[j].Direct?
      ensures ValidBlocks(bbs[j]) && baseData[j] == Encode(bbs[j])
    {
      BaseBlobAt(h, ids, infos, t, j);
    }
    BlobsForAll(bases, baseData, bbs);
  }

  /** The descriptor of a registered direct base holds the encoding of that base's chain. */
  lemma BaseBlobAt(h: Hierarchy, ids: map<nat, int>, infos: map<nat, TypeInfo>, t: nat, j: nat)
    requires WellFormed(h) && Closed(h, ids.Keys) && t in ids && Describes(h, ids, infos, |h|)
    requires j < |h[t].bases| && h[t].bases[j].Direct? && h[t].bases[j].base in infos
    ensures ValidBlocks(BaseBlocks(h, ids, t, 0)[j])
    ensures infos[h[t].bases[j].base].data == Encode(BaseBlocks(h, ids, t, 0)[j])
  {
    BaseBlocksAt(h, ids, t, 0, j);
    DescribesAt(h, ids, infos, |h|, h[t].bases[j].base);
    BuiltBlobDecodes(h, ids, h[t].bases[j].base);
  }

  /** The chain of base `j` of `t`, as `BaseBlocks` lists it. */
  lemma {:induction false} BaseBlocksAt(h: Hierarchy, ids: map<nat, int>, t: nat, k: nat, j: nat)
    requires Shaped(h) && Closed(h, ids.Keys) && t in ids && k <= j < |h[t].bases|
    ensures h[t].bases[j].Direct? ==> h[t].bases[j].base in ids
    ensures BaseBlocks(h, ids, t, k)[j - k] ==
      if h[t].bases[j].Direct? then TypeBlocks(h, ids, h[t].bases[j].base) else []
    decreases j - k
  {
    if k < j {
      BaseBlocksAt(h, ids, t, k + 1, j);
    }
  }

  /** `BlobsFor` from a base-by-base statement. */
  lemma {:induction false} BlobsForAll(bases: seq<Base>, baseData: seq<seq<int>>, bbs: seq<seq<Block>>)
    requires |baseData| == |bases| && |bbs| == |bases|
    requires forall j :: 0 <= j < |bases| && bases[j].Direct? ==> ValidBlocks(bbs[j]) && baseData[j] == Encode(bbs[j])
    ensures BlobsFor(bases, baseData, bbs)
    decreases |bases|
  {
    if bases != [] {
      forall j | 0 <= j < |bases| - 1 && bases[1..][j].Direct?
        ensures ValidBlocks(bbs[1..][j]) && baseData[1..][j] == Encode(bbs[1..][j])
      {
        assert bases[1..][j] == bases[j + 1] && bbs[1..][j] == bbs[j + 1] && baseData[1..][j] == baseData[j + 1];
      }
      BlobsForAll(bases[1..], baseData[1..], bbs[1..]);
    }
  }

  /** A registered type's descriptor reports the id the type was given. */
  lemma DescriptorId(h: Hierarchy, ids: map<nat, int>, t: nat)
    requires Shaped(h) && Closed(h, ids.Keys) && t in ids
    ensures GetTypeId(TypeInfo(h[t].name, TypeData(h, ids, t))) == ids[t]
  {
  }

  /** `operator==` on two registered types' descriptors holds exactly when they are the same type. */
  lemma SameTypeIff(h: Hierarchy, ids: map<nat, int>, a: nat, b: nat)
    requires Shaped(h) && Closed(h, ids.Keys) && a in ids && b in ids && Injective(ids)
    ensures SameType(TypeInfo(h[a].name, TypeData(h, ids, a)), TypeInfo(h[b].name, TypeData(h, ids, b))) <==> a == b
  {
    DescriptorId(h, ids, a);
    DescriptorId(h, ids, b);
  }

  /** The id bookkeeping: the id of every type built so far, and the counter. */
  datatype IdState = IdState(ids: map<nat, int>, counter: nat)

  /**
   * The ids and the counter after `GetTypeInfo<T>::Get()` for `t`: nothing
   * changes for a type already built; otherwise `t` takes the next id and
   * then the direct bases are fetched in declaration order.
   */
  ghost function Built(h: Hierarchy, s: IdState, t: nat): IdState
    requires Shaped(h) && t < |h|
    decreases t, |h[t].bases| + 2
  {
    if t in s.ids then s
    else
      var f := BuiltBases(h, IdState(s.ids, s.counter + 1), t, 0);
      IdState(f.ids[t := s.counter + 1], f.counter)
  }

  /** Fetching the direct bases of `t` from the `k`-th on. */
  ghost function BuiltBases(h: Hierarchy, s: IdState, t: nat, k: nat): IdState
    requires Shaped(h) && t < |h| && k <= |h[t].bases|
    decreases t, |h[t].bases| - k + 1
  {
    if k == |h[t].bases| then s
    else BuiltBases(h, BuiltBase(h, s, t, k), t, k + 1)
  }

  /** Fetching direct base `k` of `t`: `enable_shared_from_this` fetches nothing. */
  ghost function BuiltBase(h: Hierarchy, s: IdState, t: nat, k: nat): IdState
    requires Shaped(h) && t < |h| && k < |h[t].bases|
    decreases t, 0
  {
    match h[t].bases[k]
    case Direct(b, _) => Built(h, s, b)
    case SharedFromThis(_) => s
  }

  /**
   * What a build does to the bookkeeping: every id already given is kept,
   * `t` gets one, each new id is taken from the counter, the types built are
   * `t` and ancestors of it, and the counter advances once per type built.
   */
  lemma {:induction false} BuiltGrows(h: Hierarchy, s: IdState, t: nat)
    requires Shaped(h) && t < |h|
    ensures var r := Built(h, s, t);
      && Extends(s.ids, r.ids) && t in r.ids && s.counter <= r.counter
      && r.counter == s.counter + |r.ids| - |s.ids|
      && forall u :: u in r.ids && u !in s.ids ==> u <= t && u in Ancestors(h, t) && s.counter < r.ids[u] <= r.counter
    decreases t, |h[t].bases| + 2
  {
    if t !in s.ids {
      var s1 := IdState(s.ids, s.counter + 1);
      var f := BuiltBases(h, s1, t, 0);
      BasesGrow(h, s1, t, 0);
      var r := Built(h, s, t);
      assert t !in f.ids && r == IdState(f.ids[t := s1.counter], f.counter);
      forall u | u in r.ids && u !in s.ids
        ensures u <= t && u in Ancestors(h, t) && s.counter < r.ids[u] <= r.counter
      {
        if u != t {
          assert u in f.ids && u in BasesAncestors(h, t, 0);
        }
      }
    }
  }

  /** The same for fetching the direct bases of `t` from the `k`-th on: the types built are ancestors of those bases. */
  lemma {:induction false} BasesGrow(h: Hierarchy, s: IdState, t: nat, k: nat)
    requires Shaped(h) && t < |h| && k <= |h[t].bases|
    ensures var r := BuiltBases(h, s, t, k);
      && Extends(s.ids, r.ids) && s.counter <= r.counter
      && r.counter == s.counter + |r.ids| - |s.ids|
      && forall u :: u in r.ids && u !in s.ids ==> u < t && u in BasesAncestors(h, t, k) && s.counter < r.ids[u] <= r.counter
    decreases t, |h[t].bases| - k + 1
  {
    if k < |h[t].bases| {
      var m := BuiltBase(h, s, t, k);
      var r := BuiltBases(h, m, t, k + 1);
      BasesGrow(h, m, t, k + 1);
      assert BuiltBases(h, s, t, k) == r;
      var b := h[t].bases[k];
      if b.Direct? {
        BuiltGrows(h, s, b.base);
        assert b.base < t;
      }
      forall u | u in r.ids && u !in s.ids
        ensures u < t && u in BasesAncestors(h, t, k) && s.counter < r.ids[u] <= r.counter
      {
        if u in m.ids {
          assert b.Direct? && u in Ancestors(h, b.base) && m.ids[u] == r.ids[u];
        }
      }
    }
  }

  /** Only base classes of `t`, in the sense of `std::is_base_of`, get an id when `t` is built. */
  lemma BuiltOnlyBases(h: Hierarchy, s: IdState, t: nat, u: nat)
    requires Shaped(h) && t < |h|
    requires u in Built(h, s, t).ids && u !in s.ids
    ensures IsBaseOf(h, u, t)
  {
    BuiltGrows(h, s, t);
    AncestorsAreBases(h, t, u);
  }

  /**
   * The process-wide state behind the descriptors: `theTypeIdCounter` and the
   * function-local static `ourInstance` of every `GetTypeInfo<T>::Get()`
   * that has run (`infos`, keyed by type). `ids` records the id each built
   * descriptor got.
   */
  class Registry {
    const h: Hierarchy
    var counter: nat
    var infos: map<nat, TypeInfo>
    ghost var ids: map<nat, int>

    ghost predicate Valid()
      reads this
    {
      && WellFormed(h)
      && ids.Keys == infos.Keys
      && Closed(h, ids.Keys)
      && Injective(ids)
      && (forall u :: u in ids ==> 1 <= ids[u] <= counter)
      && Describes(h, ids, infos, |h|)
    }

    /** Program start: the counter is 0 and no descriptor is built yet. */
    constructor (h: Hierarchy)
      requires WellFormed(h)
      ensures Valid() && this.h == h && counter == 0 && infos == map[]
    {
      this.h := h;
      counter := 0;
      infos := map[];
      ids := map[];
      DescribesNone(h, map[], |h|);
    }

    /** `GenerateId`: pre-increments the counter and returns it, so the first id is 1. */
    method GenerateId() returns (id: nat)
      modifies this
      ensures id == old(counter) + 1 && counter == id
      ensures infos == old(infos) && ids == old(ids)
    {
      counter := counter + 1;
      id := counter;
    }

    /** Since the state (`ids0`, `infos0`, `counter0`): the counter has not gone back and every descriptor built then is still there, unchanged. */
    ghost predicate Grew(ids0: map<nat, int>, infos0: map<nat, TypeInfo>, counter0: nat)
      reads this
    {
      && counter0 <= counter
      && Extends(ids0, ids)
      && forall u :: u in infos0 ==> u in infos && infos[u] == infos0[u]
    }

    /** The id bookkeeping of this state. */
    ghost function State(): IdState
      reads this
    {
      IdState(ids, counter)
    }

    /**
     * `GetTypeInfo<T>::Get()`: the descriptor of `t`, built on the first call.
     * The ids and the counter become those `Built` gives: a new type gets the
     * next id before any of its bases is fetched.
     */
    method Get(t: nat) returns (info: TypeInfo)
      requires Valid() && t < |h|
      modifies this
      ensures Valid() && t in infos && info == infos[t]
      ensures info == TypeInfo(h[t].name, TypeData(h, ids, t))
      ensures State() == Built(h, old(State()), t)
      ensures Grew(old(ids), old(infos), old(counter))
      ensures forall u :: u in ids && u !in old(ids) ==> u <= t && old(counter) < ids[u] <= counter
      ensures t !in old(ids) ==> ids[t] == old(counter) + 1
      ensures t in old(ids) ==> counter == old(counter) && infos == old(infos) && ids == old(ids)
      decreases t, 3
    {
      if t in infos {
        info := infos[t];
        DescribesAt(h, ids, infos, |h|, t);
        return;
      }
      info := Create(t);
    }

    /** The first call of `GetTypeInfo<T>::Get()` for `t`: `TypeDataImpl()` runs. */
    method Create(t: nat) returns (info: TypeInfo)
      requires Valid() && t < |h| && t !in ids
      modifies this
      ensures Valid() && t in infos && info == infos[t]
      ensures info == TypeInfo(h[t].name, TypeData(h, ids, t))
      ensures State() == Built(h, old(State()), t)
      ensures Grew(old(ids), old(infos), old(counter))
      ensures forall u :: u in ids && u !in old(ids) ==> u <= t && old(counter) < ids[u] <= counter
      ensures ids[t] == old(counter) + 1
      decreases t, 2
    {
      ghost var s0 := State();
      var id := GenerateId();
      var baseData := FetchBases(t);
      ghost var fetched := ids;
      ghost var f := State();
      assert f == BuiltBases(h, IdState(s0.ids, s0.counter + 1), t, 0);
      info := Register(t, id, baseData);
      assert State() == Built(h, s0, t) by {
        assert t !in s0.ids && id == s0.counter + 1;
        assert Built(h, s0, t) == IdState(f.ids[t := id], f.counter);
        assert State() == IdState(f.ids[t := id], f.counter);
      }
      assert Extends(old(ids), ids) by {
        forall u | u in old(ids) ensures u in ids && ids[u] == old(ids)[u] {
          assert u in fetched && u != t;
        }
      }
    }

    /**
     * The bases' part of `TypeDataImpl()` for a type whose id was just
     * generated: the descriptor of each direct base, fetched in declaration
     * order, and the blob it holds.
     */
    method FetchBases(t: nat) returns (baseData: seq<seq<int>>)
      requires Valid() && t < |h| && t !in ids
      modifies this
      ensures Valid() && t !in ids && Grew(old(ids), old(infos), old(counter))
      ensures State() == BuiltBases(h, old(State()), t, 0)
      ensures forall u :: u in ids && u !in old(ids) ==> u < t && old(counter) < ids[u] <= counter
      ensures |baseData| == |h[t].bases| && Fetched(t, baseData)
      decreases t, 1
    {
      baseData := [];
      while |baseData| < |h[t].bases|
        invariant |baseData| <= |h[t].bases|
        invariant Valid() && t !in ids && Grew(old(ids), old(infos), old(counter))
        invariant BuiltBases(h, State(), t, |baseData|) == BuiltBases(h, old(State()), t, 0)
        invariant forall u :: u in ids && u !in old(ids) ==> u < t && old(counter) < ids[u] <= counter
        invariant Fetched(t, baseData)
        decreases |h[t].bases| - |baseData|
      {
        ghost var before := ids;
        baseData := FetchNext(t, baseData);
        assert Extends(old(ids), ids) by {
          forall u | u in old(ids) ensures u in ids && ids[u] == old(ids)[u] {
            assert u in before;
          }
        }
      }
    }

    /** The blobs of the first `|baseData|` direct bases of `t` are those of their descriptors. */
    ghost predicate Fetched(t: nat, baseData: seq<seq<int>>)
      requires t < |h|
      reads this
    {
      && |baseData| <= |h[t].bases|
      && forall j :: 0 <= j < |baseData| && h[t].bases[j].Direct? ==>
        h[t].bases[j].base in infos && baseData[j] == infos[h[t].bases[j].base].data
    }

    /** One step of the fold over the bases: the next direct base's descriptor is fetched. */
    method FetchNext(t: nat, baseData: seq<seq<int>>) returns (baseData': seq<seq<int>>)
      requires Valid() && t < |h| && t !in ids && |baseData| < |h[t].bases| && Fetched(t, baseData)
      modifies this
      ensures Valid() && t !in ids && Grew(old(ids), old(infos), old(counter))
      ensures State() == BuiltBase(h, old(State()), t, |baseData|)
      ensures forall u :: u in ids && u !in old(ids) ==> u < t && old(counter) < ids[u] <= counter
      ensures |baseData'| == |baseData| + 1 && Fetched(t, baseData')
      decreases t, 0
    {
      var b := h[t].bases[|baseData|];
      if b.Direct? {
        assert b.base < t by {
          assert WellFormed(h);
        }
        ghost var infos0 := infos;
        var baseInfo := Get(b.base);
        baseData' := baseData + [baseInfo.data];
        forall j | 0 <= j < |baseData'| && h[t].bases[j].Direct?
          ensures h[t].bases[j].base in infos && baseData'[j] == infos[h[t].bases[j].base].data
        {
          if j < |baseData| {
            assert h[t].bases[j].base in infos0 && baseData'[j] == baseData[j];
          }
        }
      } else {
        baseData' := baseData + [[]];
      }
    }

    /**
     * The rest of `TypeDataImpl()` and the static's initialisation: the blob
     * of `t` built from its id and its bases' blobs, and recorded.
     */
    method Register(t: nat, id: nat, baseData: seq<seq<int>>) returns (info: TypeInfo)
      requires Valid() && t < |h| && t !in ids && 1 <= id <= counter && id !in ids.Values
      requires |baseData| == |h[t].bases| && Fetched(t, baseData)
      modifies this
      ensures Valid() && counter == old(counter) && ids == old(ids)[t := id] && infos == old(infos)[t := info]
      ensures info == TypeInfo(h[t].name, TypeData(h, ids, t))
    {
      ghost var ids0 := ids;
      ids := ids[t := id];
      assert Extends(ids0, ids);
      assert Closed(h, ids.Keys) by {
        assert WellFormed(h);
      }
      DescribesFrame(h, ids0, ids, infos, |h|);
      BaseBlobs(h, ids, infos, t, baseData);
      var data := BuildTypeData(id, h[t].bases, baseData, BaseBlocks(h, ids, t, 0));
      info := TypeInfo(h[t].name, data[..]);
      DescribesAdd(h, ids, infos, |h|, t, info);
      infos := infos[t := info];
    }

    /** `RTTI::GetTypeId<T>()`: the id in the descriptor of `t`, building it if needed. */
    method TypeId(t: nat) returns (id: int)
      requires Valid() && t < |h|
      modifies this
      ensures Valid() && t in ids && id == ids[t] && Grew(old(ids), old(infos), old(counter))
      ensures State() == Built(h, old(State()), t)
      ensures t !in old(ids) ==> id == old(counter) + 1
      ensures t in old(ids) ==> counter == old(counter) && infos == old(infos) && ids == old(ids)
    {
      var info := Get(t);
      DescriptorId(h, ids, t);
      id := GetTypeId(info);
    }

    /**
     * `RTTI::DynamicCast<Target*>(p)` with `p` of static type `source`
     * pointing into an object of dynamic type `dyn` at address `addr`
     * (`p == 0` is null). An upcast is the static conversion; otherwise a
     * non-null pointer goes through the object's `KCL_RTTI_DynamicCast`,
     * which scans the dynamic type's blob for the target's id (fetched first,
     * as the call's argument).
     */
    method DynamicCast(target: nat, source: nat, p: int, dyn: nat, addr: int) returns (r: int)
      requires Valid() && target < |h| && source < |h| && dyn < |h|
      modifies this
      ensures Valid() && r == CastSpec(h, target, source, p, dyn, addr) && Grew(old(ids), old(infos), old(counter))
      ensures IsBaseOf(h, target, source) || p == 0 ==> counter == old(counter) && infos == old(infos) && ids == old(ids)
      ensures !IsBaseOf(h, target, source) && p != 0 ==> target in ids && dyn in infos
      ensures !IsBaseOf(h, target, source) && p != 0 ==> State() == Built(h, Built(h, old(State()), target), dyn)
    {
      if IsBaseOf(h, target, source) {
        r := StaticCast(h, target, source, p);
      } else if p != 0 {
        var targetId := TypeId(target);
        var info := Get(dyn);
        BuiltBlobDecodes(h, ids, dyn);
        r := CastTo(info.data, addr, targetId);
        CastSound(h, ids, dyn, target, addr);
      } else {
        r := 0;
      }
    }
  }
}
