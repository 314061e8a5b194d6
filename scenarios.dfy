/**
 * The multiple-inheritance scenario of the RTTI tests, worked through the
 * model: `Multi1A` derives from `Base1` and `Base2`, each a polymorphic class
 * holding one `int`, so on a 64-bit target `Base2` sits 16 bytes in. Then
 * where `enable_shared_from_this` may appear.
 */
module Scenarios {
  import opened Wrappers
  import opened Blob
  import opened Inheritance
  import opened Builder
  import opened Soundness
  import opened Casting
  import Registry

  /** `Base1` (index 0), `Base2` (index 1) and `Multi1A : Base1, Base2` (index 2). */
  const Multi1A: Hierarchy := [TypeDecl("Base1", []), TypeDecl("Base2", []), TypeDecl("Multi1A", [Direct(0, 0), Direct(1, 16)])]

  /** The subobjects of each type: a `Multi1A` holds itself and `Base1` at 0 and `Base2` at 16. */
  lemma Multi1AAncestry()
    ensures WellFormed(Multi1A)
    ensures Ancestry(Multi1A, 0) == [Sub(0, 0)] && Ancestry(Multi1A, 1) == [Sub(1, 0)]
    ensures Ancestry(Multi1A, 2) == [Sub(2, 0), Sub(0, 0), Sub(1, 16)]
  {
    assert BasesAncestry(Multi1A, 2, 2) == [];
    assert BasesAncestry(Multi1A, 2, 1) == [Sub(1, 16)];
  }

  /**
   * Casting a `Multi1A` at `addr`: to `Base1` gives `addr` itself, to `Base2`
   * gives a different address, `addr + 16`, the same one `static_cast` gives;
   * a `Base1*` into it cross-casts to that same `Base2` subobject.
   */
  lemma Multi1ACasts(p: int, addr: int)
    requires p != 0 && addr != 0
    ensures CastSpec(Multi1A, 1, 0, p, 2, addr) == addr + 16
    ensures CastSpec(Multi1A, 0, 2, addr, 2, addr) == addr
    ensures CastSpec(Multi1A, 1, 2, addr, 2, addr) == addr + 16
  {
    Multi1AAncestry();
  }

  /** The registration order of the first `GetTypeInfo<Multi1A>::Get()`: its own id first, then its bases'. */
  const Multi1AIds: map<nat, int> := map[2 := 1, 0 := 2, 1 := 3]

  /**
   * The first `GetTypeInfo<Multi1A>::Get()` of the program hands out exactly
   * those ids, and leaves the counter at 3.
   */
  lemma Multi1AFirstBuild()
    ensures Registry.Built(Multi1A, Registry.IdState(map[], 0), 2) == Registry.IdState(Multi1AIds, 3)
  {
  }

  /** Each base's own blob is one block holding its id. */
  lemma Multi1ABaseBlocks()
    ensures Closed(Multi1A, Multi1AIds.Keys)
    ensures BaseBlocks(Multi1A, Multi1AIds, 2, 0) == [[Block(0, [2])], [Block(0, [3])]]
  {
    assert Closed(Multi1A, Multi1AIds.Keys);
    assert TypeBlocks(Multi1A, Multi1AIds, 0) == [Block(0, [2])];
    assert TypeBlocks(Multi1A, Multi1AIds, 1) == [Block(0, [3])];
  }

  /** `Base1`'s id joins the head block; `Base2`'s block is moved to offset 16. */
  lemma Multi1AFill()
    ensures FillBases(Multi1A[2].bases, [[Block(0, [2])], [Block(0, [3])]], 0) == Filled([2], [Block(16, [3])])
  {
    var bases, bbs := Multi1A[2].bases, [[Block(0, [2])], [Block(0, [3])]];
    assert FillBases(bases[1..], bbs[1..], 16) == Filled([3], []);
  }

  /**
   * The blob of `Multi1A` when it is built first: `Multi1A` gets id 1 and its
   * bases 2 and 3. The head block holds 1 and 2, then comes `Base2` at 16.
   */
  lemma Multi1ABlob()
    ensures Closed(Multi1A, Multi1AIds.Keys)
    ensures TypeBlocks(Multi1A, Multi1AIds, 2) == [Block(0, [1, 2]), Block(16, [3])]
    ensures TypeData(Multi1A, Multi1AIds, 2) == [2, 1, 2, 16, 1, 3, 0]
  {
    Multi1ABaseBlocks();
    Multi1AFill();
    var bs := [Block(0, [1, 2]), Block(16, [3])];
    assert [1] + [2] == [1, 2] && [Block(0, [1, 2])] + [Block(16, [3])] == bs;
    assert Encode(bs) == [2, 1, 2, 16, 1, 3, 0];
  }

  /**
   * `Shared : std::enable_shared_from_this<Shared>` carries the stray byte, so
   * a type may derive from it only as its last base: `Bad : Shared, Base1`
   * is excluded, `Good : Base1, Shared` is kept.
   */
  lemma SharedFromThisLast()
    ensures !WellFormed([TypeDecl("Shared", [SharedFromThis(0)]), TypeDecl("Base1", []),
                         TypeDecl("Bad", [Direct(0, 0), Direct(1, 16)])])
    ensures WellFormed([TypeDecl("Shared", [SharedFromThis(0)]), TypeDecl("Base1", []),
                        TypeDecl("Good", [Direct(1, 0), Direct(0, 16)])])
  {
    var bad := [TypeDecl("Shared", [SharedFromThis(0)]), TypeDecl("Base1", []),
                TypeDecl("Bad", [Direct(0, 0), Direct(1, 16)])];
    assert CarriesPad(bad, 0);
    assert 0 < |bad[2].bases| - 1 && bad[2].bases[0].Direct?;
  }
}
