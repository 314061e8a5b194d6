/**
 * What `RTTI::DynamicCast` returns, stated over the hierarchy alone: the
 * static conversion when the target is a base of the pointer's static type,
 * and otherwise the pointer to the first subobject of the target type inside
 * the object, or null.
 */
module Casting {
  import opened Wrappers
  import opened Inheritance
  import opened Soundness

  /** `static_cast<Target*>(p)` for a `p` of static type `source` deriving from `target`: null stays null. */
  function StaticCast(h: Hierarchy, target: nat, source: nat, p: int): (r: int)
    requires Shaped(h) && source < |h| && IsBaseOf(h, target, source)
    ensures p == 0 ==> r == 0
    ensures p != 0 ==> exists i :: 0 <= i < |Ancestry(h, source)| && Ancestry(h, source)[i] == Sub(target, r - p)
  {
    if p == 0 then 0 else p + FirstOffset(Ancestry(h, source), target).value
  }

  /**
   * `DynamicCast<Target*>(p)`: `p` has static type `source` and points into an
   * object of dynamic type `dyn` whose most-derived address is `addr`.
   */
  function CastSpec(h: Hierarchy, target: nat, source: nat, p: int, dyn: nat, addr: int): (r: int)
    requires Shaped(h) && target < |h| && source < |h| && dyn < |h|
    ensures IsBaseOf(h, target, source) && p != 0 ==>
      exists i :: 0 <= i < |Ancestry(h, source)| && Ancestry(h, source)[i] == Sub(target, r - p)
    ensures !IsBaseOf(h, target, source) && p != 0 && IsBaseOf(h, target, dyn) ==>
      exists i :: 0 <= i < |Ancestry(h, dyn)| && Ancestry(h, dyn)[i] == Sub(target, r - addr)
  {
    if IsBaseOf(h, target, source) then StaticCast(h, target, source, p)
    else if p != 0 then Expected(h, dyn, target, addr)
    else 0
  }

  /** A null pointer casts to null, by either branch. */
  lemma NullToNull(h: Hierarchy, target: nat, source: nat, dyn: nat, addr: int)
    requires Shaped(h) && target < |h| && source < |h| && dyn < |h|
    ensures CastSpec(h, target, source, 0, dyn, addr) == 0
  {
  }

  /** An upcast lands on a subobject of the target type reached by walking up direct bases from `source`. */
  lemma UpcastPath(h: Hierarchy, target: nat, source: nat, p: int, dyn: nat, addr: int) returns (path: seq<nat>)
    requires Shaped(h) && target < |h| && source < |h| && dyn < |h|
    requires IsBaseOf(h, target, source) && p != 0
    ensures Upcast(h, source, path) == Some(Sub(target, CastSpec(h, target, source, p, dyn, addr) - p))
  {
    path := FirstUpcast(h, source, target);
  }

  /**
   * A cast that is not an upcast, of a non-null pointer, to a type the object
   * has a subobject of, lands on such a subobject of the most-derived object.
   */
  lemma DowncastPath(h: Hierarchy, target: nat, source: nat, p: int, dyn: nat, addr: int) returns (path: seq<nat>)
    requires WellFormed(h) && target < |h| && source < |h| && dyn < |h|
    requires !IsBaseOf(h, target, source) && p != 0 && IsBaseOf(h, target, dyn)
    ensures Upcast(h, dyn, path) == Some(Sub(target, CastSpec(h, target, source, p, dyn, addr) - addr))
    ensures CastSpec(h, target, source, p, dyn, addr) >= addr
  {
    path := FirstUpcast(h, dyn, target);
    var o := FirstOffset(Ancestry(h, dyn), target).value;
    var i :| 0 <= i < |Ancestry(h, dyn)| && Ancestry(h, dyn)[i] == Sub(target, o);
    AncestryNonNegative(h, dyn);
  }

  /**
   * The static type of the pointer does not matter once the cast is not an
   * upcast: casting from any subobject gives what casting from the
   * most-derived object itself gives.
   */
  lemma CrossCastAgrees(h: Hierarchy, target: nat, source: nat, p: int, dyn: nat, addr: int)
    requires Shaped(h) && target < |h| && source < |h| && dyn < |h|
    requires !IsBaseOf(h, target, source) && p != 0 && addr != 0
    ensures CastSpec(h, target, source, p, dyn, addr) == CastSpec(h, target, dyn, addr, dyn, addr)
  {
  }

  /** A cast that is not an upcast, to a type the object has no subobject of, yields null. */
  lemma UnrelatedToNull(h: Hierarchy, target: nat, source: nat, p: int, dyn: nat, addr: int)
    requires Shaped(h) && target < |h| && source < |h| && dyn < |h|
    requires !IsBaseOf(h, target, source) && !IsBaseOf(h, target, dyn)
    ensures CastSpec(h, target, source, p, dyn, addr) == 0
  {
  }

  /** Casting a non-null pointer down to the object's own dynamic type gives the object's address. */
  lemma DowncastToDynamic(h: Hierarchy, source: nat, p: int, dyn: nat, addr: int)
    requires Shaped(h) && source < |h| && dyn < |h|
    requires !IsBaseOf(h, dyn, source) && p != 0
    ensures CastSpec(h, dyn, source, p, dyn, addr) == addr
  {
    assert Ancestry(h, dyn)[0] == Sub(dyn, 0);
  }
}
