/**
 * The registered types and their direct bases, and the base subobjects of a
 * most-derived object as the language lays them out (non-virtual inheritance).
 *
 * This is the reference the blobs are checked against: `Ancestry(h, t)` lists
 * every base subobject of an object of type `t`, with its address offset,
 * in depth-first order over the declared bases (outer bases first). A type
 * reachable through two paths (a diamond) appears once per path.
 */
module Inheritance {
  import opened Wrappers

  /**
   * A direct base as registered: a registered type at a pointer offset inside
   * the derived object, or `std::enable_shared_from_this<T>`, which the
   * descriptor builder special-cases and records nothing for.
   */
  datatype Base = Direct(base: nat, offset: int) | SharedFromThis(offset: int)

  /** One registered type: its display name and its ordered direct bases. */
  datatype TypeDecl = TypeDecl(name: string, bases: seq<Base>)

  /** Registered types, indexed by a type token; bases come before the types deriving from them. */
  type Hierarchy = seq<TypeDecl>

  /** Every direct base is a type registered earlier, so the base relation is acyclic. */
  predicate Shaped(h: Hierarchy)
  {
    forall t, i :: 0 <= t < |h| && 0 <= i < |h[t].bases| && h[t].bases[i].Direct? ==> h[t].bases[i].base < t
  }

  /**
   * What the builder relies on and does not check: the first base sits at the
   * derived object's own address, every other base at a positive offset (0 is
   * the blob's end marker), and `enable_shared_from_this` comes last (its
   * `BaseTypeData` specialisation is an empty struct that still takes one
   * byte of the packed buffer, right before the end marker).
   */
  predicate BaseOk(bs: seq<Base>, i: nat)
    requires i < |bs|
  {
    && (i == 0 ==> bs[i].offset == 0)
    && (i > 0 ==> bs[i].offset > 0)
    && (bs[i].SharedFromThis? ==> i == |bs| - 1)
  }

  /**
   * The blob of `t` carries that stray byte: its last base is
   * `enable_shared_from_this`, or a registered type whose blob carries it
   * (the byte is copied along with the base's words, since a base's buffer
   * is sized from the whole of the base's type data).
   */
  predicate CarriesPad(h: Hierarchy, t: nat)
    requires Shaped(h) && t < |h|
    decreases t
  {
    |h[t].bases| > 0 &&
    match h[t].bases[|h[t].bases| - 1]
    case SharedFromThis(_) => true
    case Direct(b, _) => CarriesPad(h, b)
  }

  /**
   * The layout conditions of `BaseOk` on every type, and a type whose blob
   * carries the stray byte is only ever the last base: anywhere else the byte
   * would sit before the next base's offset word and shift every later read.
   */
  predicate WellFormed(h: Hierarchy)
  {
    && Shaped(h)
    && (forall t, i :: 0 <= t < |h| && 0 <= i < |h[t].bases| ==> BaseOk(h[t].bases, i))
    && forall t, i :: 0 <= t < |h| && 0 <= i < |h[t].bases| - 1 && h[t].bases[i].Direct? ==> !CarriesPad(h, h[t].bases[i].base)
  }

  /** A set of types that holds the direct bases of each of its members. */
  predicate Closed(h: Hierarchy, s: set<nat>)
  {
    forall u :: u in s ==> u < |h| && forall i :: 0 <= i < |h[u].bases| && h[u].bases[i].Direct? ==> h[u].bases[i].base in s
  }

  /** A base subobject: its type and its offset from the most-derived object's address. */
  datatype Sub = Sub(ty: nat, offset: int)

  function ShiftSubs(ss: seq<Sub>, d: int): (r: seq<Sub>)
    ensures |r| == |ss|
    ensures forall i :: 0 <= i < |ss| ==> r[i] == Sub(ss[i].ty, ss[i].offset + d)
  {
    seq(|ss|, i requires 0 <= i < |ss| => Sub(ss[i].ty, ss[i].offset + d))
  }

  /** The object itself, then the subobjects of each direct base in declaration order. */
  function Ancestry(h: Hierarchy, t: nat): (ss: seq<Sub>)
    requires Shaped(h) && t < |h|
    decreases t, |h[t].bases| + 1
  {
    [Sub(t, 0)] + BasesAncestry(h, t, 0)
  }

  /** The subobjects contributed by the direct bases of `t` from the `k`-th on. */
  function BasesAncestry(h: Hierarchy, t: nat, k: nat): seq<Sub>
    requires Shaped(h) && t < |h| && k <= |h[t].bases|
    decreases t, |h[t].bases| - k
  {
    if k == |h[t].bases| then []
    else
      var b := h[t].bases[k];
      (if b.Direct? then ShiftSubs(Ancestry(h, b.base), b.offset) else []) + BasesAncestry(h, t, k + 1)
  }

  /** The offset of the first subobject of type `a`, in Ancestry order. */
  function FirstOffset(ss: seq<Sub>, a: nat): (r: Option<int>)
    ensures r.Some? <==> exists i :: 0 <= i < |ss| && ss[i].ty == a
    ensures r.Some? ==> exists i :: 0 <= i < |ss| && ss[i] == Sub(a, r.value)
  {
    if ss == [] then None
    else if ss[0].ty == a then Some(ss[0].offset)
    else
      var r := FirstOffset(ss[1..], a);
      assert forall i :: 1 <= i < |ss| ==> ss[i] == ss[1..][i - 1];
      r
  }

  /** `std::is_base_of<A, T>`: `a` is `t` itself or one of its ancestors. */
  predicate IsBaseOf(h: Hierarchy, a: nat, t: nat)
    requires Shaped(h) && t < |h|
  {
    FirstOffset(Ancestry(h, t), a).Some?
  }

  /**
   * The static upcast along an inheritance path, given as the index of the
   * direct base taken at each step: the type reached and the sum of the
   * base offsets crossed.
   */
  function Upcast(h: Hierarchy, t: nat, path: seq<nat>): Option<Sub>
    requires Shaped(h) && t < |h|
    decreases |path|
  {
    if path == [] then Some(Sub(t, 0))
    else if path[0] < |h[t].bases| && h[t].bases[path[0]].Direct? then
      var b := h[t].bases[path[0]];
      match Upcast(h, b.base, path[1..])
      case None => None
      case Some(s) => Some(Sub(s.ty, s.offset + b.offset))
    else None
  }

  // ---------------------------------------------------------------------
  // Facts about the subobject list

  /** No subobject is of a type registered after `t`; in particular a type is never its own proper ancestor. */
  lemma {:induction false} AncestryBounded(h: Hierarchy, t: nat)
    requires Shaped(h) && t < |h|
    ensures forall i :: 0 <= i < |Ancestry(h, t)| ==> Ancestry(h, t)[i].ty <= t
    ensures forall i :: 1 <= i < |Ancestry(h, t)| ==> Ancestry(h, t)[i].ty < t
    decreases t, |h[t].bases| + 1
  {
    BasesAncestryBounded(h, t, 0);
  }

  lemma {:induction false} BasesAncestryBounded(h: Hierarchy, t: nat, k: nat)
    requires Shaped(h) && t < |h| && k <= |h[t].bases|
    ensures forall i :: 0 <= i < |BasesAncestry(h, t, k)| ==> BasesAncestry(h, t, k)[i].ty < t
    decreases t, |h[t].bases| - k
  {
    if k < |h[t].bases| {
      var b := h[t].bases[k];
      if b.Direct? {
        AncestryBounded(h, b.base);
      }
      BasesAncestryBounded(h, t, k + 1);
    }
  }

  /** With the documented layout, every subobject lies at a non-negative offset. */
  lemma {:induction false} AncestryNonNegative(h: Hierarchy, t: nat)
    requires WellFormed(h) && t < |h|
    ensures forall i :: 0 <= i < |Ancestry(h, t)| ==> Ancestry(h, t)[i].offset >= 0
    decreases t, |h[t].bases| + 1
  {
    BasesAncestryNonNegative(h, t, 0);
  }

  lemma {:induction false} BasesAncestryNonNegative(h: Hierarchy, t: nat, k: nat)
    requires WellFormed(h) && t < |h| && k <= |h[t].bases|
    ensures forall i :: 0 <= i < |BasesAncestry(h, t, k)| ==> BasesAncestry(h, t, k)[i].offset >= 0
    decreases t, |h[t].bases| - k
  {
    if k < |h[t].bases| {
      var b := h[t].bases[k];
      assert BaseOk(h[t].bases, k);
      if b.Direct? {
        AncestryNonNegative(h, b.base);
      }
      BasesAncestryNonNegative(h, t, k + 1);
    }
  }

  /** A set closed under direct bases holds every ancestor of its members. */
  lemma {:induction false} AncestryClosed(h: Hierarchy, s: set<nat>, t: nat)
    requires Shaped(h) && Closed(h, s) && t in s
    ensures forall i :: 0 <= i < |Ancestry(h, t)| ==> Ancestry(h, t)[i].ty in s
    decreases t, |h[t].bases| + 1
  {
    BasesAncestryClosed(h, s, t, 0);
  }

  lemma {:induction false} BasesAncestryClosed(h: Hierarchy, s: set<nat>, t: nat, k: nat)
    requires Shaped(h) && Closed(h, s) && t in s && k <= |h[t].bases|
    ensures forall i :: 0 <= i < |BasesAncestry(h, t, k)| ==> BasesAncestry(h, t, k)[i].ty in s
    decreases t, |h[t].bases| - k
  {
    if k < |h[t].bases| {
      var b := h[t].bases[k];
      if b.Direct? {
        AncestryClosed(h, s, b.base);
      }
      BasesAncestryClosed(h, s, t, k + 1);
    }
  }

  // ---------------------------------------------------------------------
  // The subobject list is exactly the set of static upcasts

  lemma {:induction false} BasesAncestryHas(h: Hierarchy, t: nat, k: nat, j: nat, s: Sub)
    requires Shaped(h) && t < |h| && k <= j < |h[t].bases| && h[t].bases[j].Direct?
    requires s in ShiftSubs(Ancestry(h, h[t].bases[j].base), h[t].bases[j].offset)
    ensures s in BasesAncestry(h, t, k)
    decreases j - k
  {
    var b := h[t].bases[k];
    var mine := if b.Direct? then ShiftSubs(Ancestry(h, b.base), b.offset) else [];
    var rest := BasesAncestry(h, t, k + 1);
    assert BasesAncestry(h, t, k) == mine + rest;
    if k < j {
      BasesAncestryHas(h, t, k + 1, j, s);
      var i :| 0 <= i < |rest| && rest[i] == s;
      assert (mine + rest)[|mine| + i] == s;
    } else {
      var i :| 0 <= i < |mine| && mine[i] == s;
      assert (mine + rest)[i] == s;
    }
  }

  /** Every static upcast along a path lands on a subobject in the list. */
  lemma {:induction false} UpcastInAncestry(h: Hierarchy, t: nat, path: seq<nat>)
    requires Shaped(h) && t < |h| && Upcast(h, t, path).Some?
    ensures Upcast(h, t, path).value in Ancestry(h, t)
    decreases |path|
  {
    if path != [] {
      var b := h[t].bases[path[0]];
      var s := Upcast(h, b.base, path[1..]).value;
      UpcastInAncestry(h, b.base, path[1..]);
      var i :| 0 <= i < |Ancestry(h, b.base)| && Ancestry(h, b.base)[i] == s;
      assert ShiftSubs(Ancestry(h, b.base), b.offset)[i] == Upcast(h, t, path).value;
      BasesAncestryHas(h, t, 0, path[0], Upcast(h, t, path).value);
    }
  }

  /** A subobject contributed by the bases from the `k`-th on comes from one of them, `j`. */
  lemma {:induction false} BasesAncestryFrom(h: Hierarchy, t: nat, k: nat, s: Sub) returns (j: nat)
    requires Shaped(h) && t < |h| && k <= |h[t].bases| && s in BasesAncestry(h, t, k)
    ensures k <= j < |h[t].bases| && h[t].bases[j].Direct?
    ensures Sub(s.ty, s.offset - h[t].bases[j].offset) in Ancestry(h, h[t].bases[j].base)
    decreases |h[t].bases| - k
  {
    var b := h[t].bases[k];
    var mine := if b.Direct? then ShiftSubs(Ancestry(h, b.base), b.offset) else [];
    if s in mine {
      var i :| 0 <= i < |mine| && mine[i] == s;
      assert Ancestry(h, b.base)[i] == Sub(s.ty, s.offset - b.offset);
      j := k;
    } else {
      j := BasesAncestryFrom(h, t, k + 1, s);
    }
  }

  /** Every subobject in the list is reached by a static upcast path: the one returned. */
  lemma {:induction false} AncestryHasUpcast(h: Hierarchy, t: nat, s: Sub) returns (path: seq<nat>)
    requires Shaped(h) && t < |h| && s in Ancestry(h, t)
    ensures Upcast(h, t, path) == Some(s)
    decreases t
  {
    if s == Sub(t, 0) {
      path := [];
    } else {
      var j := BasesAncestryFrom(h, t, 0, s);
      var b := h[t].bases[j];
      var p := AncestryHasUpcast(h, b.base, Sub(s.ty, s.offset - b.offset));
      path := [j] + p;
      UpcastCons(h, t, j, p);
    }
  }

  /** The subobject `static_cast` picks, the first of its type, is reached by a static upcast path: the one returned. */
  lemma FirstUpcast(h: Hierarchy, t: nat, a: nat) returns (path: seq<nat>)
    requires Shaped(h) && t < |h| && IsBaseOf(h, a, t)
    ensures Upcast(h, t, path) == Some(Sub(a, FirstOffset(Ancestry(h, t), a).value))
  {
    var ss := Ancestry(h, t);
    var o := FirstOffset(ss, a).value;
    var i :| 0 <= i < |ss| && ss[i] == Sub(a, o);
    path := AncestryHasUpcast(h, t, Sub(a, o));
  }

  /** Taking direct base `j` first, then `p` from there. */
  lemma UpcastCons(h: Hierarchy, t: nat, j: nat, p: seq<nat>)
    requires Shaped(h) && t < |h| && j < |h[t].bases| && h[t].bases[j].Direct?
    ensures var b := h[t].bases[j];
      Upcast(h, t, [j] + p) ==
        match Upcast(h, b.base, p)
        case None => None
        case Some(s) => Some(Sub(s.ty, s.offset + b.offset))
  {
    assert ([j] + p)[0] == j && ([j] + p)[1..] == p;
  }

  // ---------------------------------------------------------------------
  // The base-of relation

  /** The types of `t`'s base subobjects, `t` included, gathered base by base as the constructors fetch them. */
  function Ancestors(h: Hierarchy, t: nat): set<nat>
    requires Shaped(h) && t < |h|
    decreases t, |h[t].bases| + 1
  {
    {t} + BasesAncestors(h, t, 0)
  }

  /** The types contributed by the direct bases of `t` from the `k`-th on. */
  function BasesAncestors(h: Hierarchy, t: nat, k: nat): set<nat>
    requires Shaped(h) && t < |h| && k <= |h[t].bases|
    decreases t, |h[t].bases| - k
  {
    if k == |h[t].bases| then {}
    else
      var b := h[t].bases[k];
      (if b.Direct? then Ancestors(h, b.base) else {}) + BasesAncestors(h, t, k + 1)
  }

  /** The types occurring in a subobject list. */
  function TypesOf(ss: seq<Sub>): set<nat>
  {
    set i | 0 <= i < |ss| :: ss[i].ty
  }

  lemma TypesOfAppend(a: seq<Sub>, b: seq<Sub>)
    ensures TypesOf(a + b) == TypesOf(a) + TypesOf(b)
  {
    forall u | u in TypesOf(a + b) ensures u in TypesOf(a) + TypesOf(b) {
      var i :| 0 <= i < |a + b| && (a + b)[i].ty == u;
      if i >= |a| {
        assert b[i - |a|].ty == u;
      } else {
        assert a[i].ty == u;
      }
    }
    forall u | u in TypesOf(a) ensures u in TypesOf(a + b) {
      var i :| 0 <= i < |a| && a[i].ty == u;
      assert (a + b)[i].ty == u;
    }
    forall u | u in TypesOf(b) ensures u in TypesOf(a + b) {
      var i :| 0 <= i < |b| && b[i].ty == u;
      assert (a + b)[|a| + i].ty == u;
    }
  }

  lemma TypesOfShift(ss: seq<Sub>, d: int)
    ensures TypesOf(ShiftSubs(ss, d)) == TypesOf(ss)
  {
    forall u | u in TypesOf(ss) ensures u in TypesOf(ShiftSubs(ss, d)) {
      var i :| 0 <= i < |ss| && ss[i].ty == u;
      assert ShiftSubs(ss, d)[i].ty == u;
    }
  }

  /** `Ancestors` lists exactly the types of the subobjects in `Ancestry`. */
  lemma {:induction false} AncestorsTypes(h: Hierarchy, t: nat)
    requires Shaped(h) && t < |h|
    ensures Ancestors(h, t) == TypesOf(Ancestry(h, t))
    decreases t, |h[t].bases| + 1
  {
    BasesAncestorsTypes(h, t, 0);
    TypesOfAppend([Sub(t, 0)], BasesAncestry(h, t, 0));
    assert TypesOf([Sub(t, 0)]) == {t} by {
      assert [Sub(t, 0)][0].ty == t;
    }
  }

  lemma {:induction false} BasesAncestorsTypes(h: Hierarchy, t: nat, k: nat)
    requires Shaped(h) && t < |h| && k <= |h[t].bases|
    ensures BasesAncestors(h, t, k) == TypesOf(BasesAncestry(h, t, k))
    decreases t, |h[t].bases| - k
  {
    if k < |h[t].bases| {
      var b := h[t].bases[k];
      var mine := if b.Direct? then ShiftSubs(Ancestry(h, b.base), b.offset) else [];
      BasesAncestorsTypes(h, t, k + 1);
      assert BasesAncestry(h, t, k) == mine + BasesAncestry(h, t, k + 1);
      TypesOfAppend(mine, BasesAncestry(h, t, k + 1));
      if b.Direct? {
        AncestorsTypes(h, b.base);
        TypesOfShift(Ancestry(h, b.base), b.offset);
      } else {
        assert TypesOf(mine) == {};
      }
    }
  }

  /** A type is among the ancestors of `t` exactly when it is a base of `t` in the sense of `std::is_base_of`. */
  lemma AncestorsAreBases(h: Hierarchy, t: nat, u: nat)
    requires Shaped(h) && t < |h|
    ensures u in Ancestors(h, t) <==> IsBaseOf(h, u, t)
  {
    AncestorsTypes(h, t);
    var ss := Ancestry(h, t);
    if IsBaseOf(h, u, t) {
      var i :| 0 <= i < |ss| && ss[i].ty == u;
      assert u in TypesOf(ss);
    }
  }
}
