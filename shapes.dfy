/** Shape nodes: a transformation with its cached inverse and inverse-transpose, a shared
    material, an optional parent, and the coordinate mappings between world space and a
    shape's object space along the parent chain. Shapes live in an arena (a sequence of
    shape objects) and refer to each other, and are referred to by intersections, through
    their index in it. */
module Shapes {
  import opened Options
  import opened Tuples
  import opened Matrices
  import opened Bounds
  import opened Intersections

  /** The concrete kind of a shape; plays the part of the dynamic type compared by `==`. */
  datatype Kind = Sphere | Plane | Cube | Cylinder | Cone | Triangle | Group | Csg

  /** The kind-specific geometry, supplied from outside: each function works in object space. */
  datatype Geometry = Geometry(
    localIntersection: (Kind, Ray) -> seq<real>,
    localNormalAt: (Kind, Tuple) -> Tuple,
    bounds: Kind -> Box)

  /** The refractive index of vacuum, which a fresh material starts with. */
  const DefaultRefractiveIndex: real := 1.0

  /** A material, shared between the shapes that hold it. */
  class Material {
    var refractiveIndex: real

    constructor (refractiveIndex: real)
      ensures this.refractiveIndex == refractiveIndex
    {
      this.refractiveIndex := refractiveIndex;
    }
  }

  /** The cached inverse and inverse-transpose agree with the transformation `t`. */
  ghost predicate CachesAgree(t: Matrix, inv: Matrix, invT: Matrix) {
    IsInverse(t, inv) && invT == Transpose(inv)
  }

  lemma IdentityCachesAgree()
    ensures CachesAgree(Identity, Identity, Identity)
  {
    IdentityIsSelfInverse();
    IdentityIsSelfTranspose();
  }

  class Shape {
    const kind: Kind
    var transformation: Matrix
    var transformationInverse: Matrix
    var transformationInverseTranspose: Matrix
    var material: Material
    var parent: Option<ShapeId>
    var castsShadow: bool

    /** The caches agree with the transformation. */
    ghost predicate Valid()
      reads this
    {
      CachesAgree(transformation, transformationInverse, transformationInverseTranspose)
    }

    /** A fresh shape: identity transformation and caches (which agree, by
        UntransformedShapeValid), a fresh default material, no parent, and it casts shadows. */
    constructor (kind: Kind)
      ensures this.kind == kind
      ensures transformation == Identity && transformationInverse == Identity
      ensures transformationInverseTranspose == Identity
      ensures fresh(material) && material.refractiveIndex == DefaultRefractiveIndex
      ensures parent == None && castsShadow
    {
      this.kind := kind;
      transformation := Identity;
      transformationInverse := Identity;
      transformationInverseTranspose := Identity;
      material := new Material(DefaultRefractiveIndex);
      parent := None;
      castsShadow := true;
    }

    /** Replaces the transformation and recomputes both caches from it. The caller passes the
        inverse that the matrix library computes for `t`; it must be the inverse. */
    method SetTransformation(t: Matrix, inverse: Matrix)
      requires IsInverse(t, inverse)
      modifies this
      ensures Valid()
      ensures transformation == t
      ensures Invertible(t) && transformationInverse == Invert(t)
      ensures transformationInverseTranspose == Transpose(Invert(t))
      ensures material == old(material) && parent == old(parent) && castsShadow == old(castsShadow)
    {
      transformation := t;
      transformationInverse := inverse;
      transformationInverseTranspose := Transpose(transformationInverse);
      InvertIs(t, inverse);
    }

    method SetMaterial(m: Material)
      modifies this
      ensures material == m
      ensures transformation == old(transformation) && transformationInverse == old(transformationInverse)
      ensures transformationInverseTranspose == old(transformationInverseTranspose)
      ensures parent == old(parent) && castsShadow == old(castsShadow)
    {
      material := m;
    }

    method SetParent(p: Option<ShapeId>)
      modifies this
      ensures parent == p
      ensures transformation == old(transformation) && transformationInverse == old(transformationInverse)
      ensures transformationInverseTranspose == old(transformationInverseTranspose)
      ensures material == old(material) && castsShadow == old(castsShadow)
    {
      parent := p;
    }

    method SetCastsShadow(s: bool)
      modifies this
      ensures castsShadow == s
      ensures transformation == old(transformation) && transformationInverse == old(transformationInverse)
      ensures transformationInverseTranspose == old(transformationInverseTranspose)
      ensures material == old(material) && parent == old(parent)
    {
      castsShadow := s;
    }

    /** Kind-specific extra comparison; no kind in this model carries extra state, so this is
        the default, which accepts. */
    predicate DoCompare(other: Shape)
    {
      true
    }

    /** Structural equality: same kind, transformation, shadow flag and material contents, and
        then the kind-specific comparison. The parent and the caches are not compared. */
    predicate Equals(other: Shape)
      reads this, other, material, other.material
    {
      kind == other.kind && transformation == other.transformation &&
      castsShadow == other.castsShadow &&
      material.refractiveIndex == other.material.refractiveIndex &&
      DoCompare(other)
    }

    predicate NotEquals(other: Shape)
      reads this, other, material, other.material
    {
      !Equals(other)
    }

    /** The local bounds mapped through the forward transformation into the parent's space:
        the smallest box holding the forward images of the local box's corners. */
    function ParentSpaceBounds(geo: Geometry): (r: Box)
      reads this
      ensures forall i :: 0 <= i < 8 ==> Contains(r, Apply(transformation, Corners(geo.bounds(kind))[i]))
      ensures AttainsBounds(r, CornerImages(geo.bounds(kind), transformation))
    {
      TransformBox(geo.bounds(kind), transformation)
    }
  }

  /** A shape whose transformation and caches are all the identity, as a fresh one is, has
      consistent caches. */
  lemma UntransformedShapeValid(s: Shape)
    requires s.transformation == Identity && s.transformationInverse == Identity
    requires s.transformationInverseTranspose == Identity
    ensures s.Valid()
  {
    IdentityCachesAgree();
  }

  /** Equality is an equivalence relation. */
  lemma EqualsIsEquivalence(a: Shape, b: Shape, c: Shape)
    ensures a.Equals(a)
    ensures a.Equals(b) ==> b.Equals(a)
    ensures a.Equals(b) && b.Equals(c) ==> a.Equals(c)
    ensures a.NotEquals(b) <==> !a.Equals(b)
  {
  }

  /** Equal valid shapes also agree on their caches, although `Equals` does not compare them. */
  lemma EqualShapesShareCaches(a: Shape, b: Shape)
    requires a.Valid() && b.Valid() && a.Equals(b)
    ensures a.transformationInverse == b.transformationInverse
    ensures a.transformationInverseTranspose == b.transformationInverseTranspose
  {
    InverseUnique(a.transformation, a.transformationInverse, b.transformationInverse);
  }

  /** Every shape of the arena has consistent caches. */
  ghost predicate ArenaValid(arena: seq<Shape>)
    reads arena
  {
    forall i :: 0 <= i < |arena| ==> arena[i].Valid()
  }

  /** Every transformation in the arena is affine. */
  ghost predicate ArenaAffine(arena: seq<Shape>)
    reads arena
  {
    forall i :: 0 <= i < |arena| ==> IsAffine(arena[i].transformation)
  }

  /** The parent chain from `id` stays inside the arena and reaches a root within `fuel` steps. */
  predicate RootedWithin(arena: seq<Shape>, id: ShapeId, fuel: nat)
    reads arena
    decreases fuel
  {
    id < |arena| &&
    match arena[id].parent
    case None => true
    case Some(p) => fuel > 0 && RootedWithin(arena, p, fuel - 1)
  }

  /** No shape is its own ancestor: every chain reaches a root within as many steps as there
      are shapes. */
  predicate Acyclic(arena: seq<Shape>)
    reads arena
  {
    forall id: ShapeId :: id < |arena| ==> RootedWithin(arena, id, |arena|)
  }

  lemma {:induction false} RootedWithinMore(arena: seq<Shape>, id: ShapeId, fuel: nat, more: nat)
    requires RootedWithin(arena, id, fuel) && fuel <= more
    ensures RootedWithin(arena, id, more)
    decreases fuel
  {
    match arena[id].parent
    case None =>
    case Some(p) => RootedWithinMore(arena, p, fuel - 1, more - 1);
  }

  // ---- world to object ----

  function WorldToObjectWithin(arena: seq<Shape>, id: ShapeId, p: Tuple, fuel: nat): Tuple
    requires RootedWithin(arena, id, fuel)
    reads arena
    decreases fuel
  {
    var s := arena[id];
    match s.parent
    case None => Apply(s.transformationInverse, p)
    case Some(q) => Apply(s.transformationInverse, WorldToObjectWithin(arena, q, p, fuel - 1))
  }

  lemma {:induction false} WorldToObjectFuel(arena: seq<Shape>, id: ShapeId, p: Tuple, fuel: nat, more: nat)
    requires RootedWithin(arena, id, fuel) && fuel <= more
    ensures RootedWithin(arena, id, more)
    ensures WorldToObjectWithin(arena, id, p, fuel) == WorldToObjectWithin(arena, id, p, more)
    decreases fuel
  {
    RootedWithinMore(arena, id, fuel, more);
    match arena[id].parent
    case None =>
    case Some(q) => WorldToObjectFuel(arena, q, p, fuel - 1, more - 1);
  }

  /** A world-space point in the object space of shape `id`: the ancestors' inverses are
      applied first, outermost first, and this shape's own inverse last. */
  function WorldToObject(arena: seq<Shape>, id: ShapeId, p: Tuple): Tuple
    requires Acyclic(arena) && id < |arena|
    reads arena
  {
    WorldToObjectWithin(arena, id, p, |arena|)
  }

  /** The recursion equations of WorldToObject. */
  lemma WorldToObjectStep(arena: seq<Shape>, id: ShapeId, p: Tuple)
    requires Acyclic(arena) && id < |arena|
    ensures arena[id].parent.None? ==>
      WorldToObject(arena, id, p) == Apply(arena[id].transformationInverse, p)
    ensures arena[id].parent.Some? ==>
      arena[id].parent.value < |arena| &&
      WorldToObject(arena, id, p) ==
        Apply(arena[id].transformationInverse, WorldToObject(arena, arena[id].parent.value, p))
  {
    assert RootedWithin(arena, id, |arena|);
    match arena[id].parent
    case None =>
    case Some(q) => WorldToObjectFuel(arena, q, p, |arena| - 1, |arena|);
  }

  // ---- object to world (the inverse mapping, used to state round trips) ----

  function ObjectToWorldWithin(arena: seq<Shape>, id: ShapeId, p: Tuple, fuel: nat): Tuple
    requires RootedWithin(arena, id, fuel)
    reads arena
    decreases fuel
  {
    var s := arena[id];
    var q := Apply(s.transformation, p);
    match s.parent
    case None => q
    case Some(pid) => ObjectToWorldWithin(arena, pid, q, fuel - 1)
  }

  /** An object-space point of shape `id` in world space: its own transformation first, then
      each ancestor's. */
  function ObjectToWorld(arena: seq<Shape>, id: ShapeId, p: Tuple): Tuple
    requires Acyclic(arena) && id < |arena|
    reads arena
  {
    ObjectToWorldWithin(arena, id, p, |arena|)
  }

  lemma {:induction false} RoundTripWithin(arena: seq<Shape>, id: ShapeId, p: Tuple, fuel: nat)
    requires RootedWithin(arena, id, fuel) && ArenaValid(arena)
    ensures WorldToObjectWithin(arena, id, ObjectToWorldWithin(arena, id, p, fuel), fuel) == p
    ensures ObjectToWorldWithin(arena, id, WorldToObjectWithin(arena, id, p, fuel), fuel) == p
    decreases fuel
  {
    var s := arena[id];
    assert s.Valid();
    InverseRoundTrip(s.transformation, s.transformationInverse, p);
    match s.parent
    case None =>
    case Some(q) =>
      RoundTripWithin(arena, q, Apply(s.transformation, p), fuel - 1);
      var w := WorldToObjectWithin(arena, q, p, fuel - 1);
      RoundTripWithin(arena, q, p, fuel - 1);
      InverseRoundTrip(s.transformation, s.transformationInverse, w);
  }

  /** WorldToObject and ObjectToWorld undo each other, for every shape of a valid arena. */
  lemma WorldObjectRoundTrip(arena: seq<Shape>, id: ShapeId, p: Tuple)
    requires Acyclic(arena) && ArenaValid(arena) && id < |arena|
    ensures WorldToObject(arena, id, ObjectToWorld(arena, id, p)) == p
    ensures ObjectToWorld(arena, id, WorldToObject(arena, id, p)) == p
  {
    RoundTripWithin(arena, id, p, |arena|);
  }

  // ---- normal to world ----

  /** One level of normal promotion: the inverse-transpose, w dropped, normalized. */
  function PromoteNormal(s: Shape, n: Tuple, sqrt: real -> real): (r: Tuple)
    reads s
    ensures r.w == 0.0
    ensures IsSqrt(sqrt) ==> exists k: real :: k > 0.0 && r == Scale(k, DropW(Apply(s.transformationInverseTranspose, n)))
  {
    Normalize(DropW(Apply(s.transformationInverseTranspose, n)), sqrt)
  }

  function NormalToWorldWithin(arena: seq<Shape>, id: ShapeId, n: Tuple, sqrt: real -> real, fuel: nat): (r: Tuple)
    requires RootedWithin(arena, id, fuel)
    reads arena
    ensures r.w == 0.0
    ensures IsSqrt(sqrt) ==> Dot(r, r) == 1.0 || Dot(r, r) == 0.0
    decreases fuel
  {
    var s := arena[id];
    var n2 := PromoteNormal(s, n, sqrt);
    match s.parent
    case None => n2
    case Some(q) => NormalToWorldWithin(arena, q, n2, sqrt, fuel - 1)
  }

  lemma {:induction false} NormalToWorldFuel(arena: seq<Shape>, id: ShapeId, n: Tuple, sqrt: real -> real, fuel: nat, more: nat)
    requires RootedWithin(arena, id, fuel) && fuel <= more
    ensures RootedWithin(arena, id, more)
    ensures NormalToWorldWithin(arena, id, n, sqrt, fuel) == NormalToWorldWithin(arena, id, n, sqrt, more)
    decreases fuel
  {
    RootedWithinMore(arena, id, fuel, more);
    match arena[id].parent
    case None =>
    case Some(q) => NormalToWorldFuel(arena, q, PromoteNormal(arena[id], n, sqrt), sqrt, fuel - 1, more - 1);
  }

  /** An object-space normal of shape `id` in world space: promoted through this shape's
      inverse-transpose, then through each ancestor's. The result is a vector (w = 0) of unit
      length, or the zero vector. */
  function NormalToWorld(arena: seq<Shape>, id: ShapeId, n: Tuple, sqrt: real -> real): (r: Tuple)
    requires Acyclic(arena) && id < |arena|
    reads arena
    ensures r.w == 0.0
    ensures IsSqrt(sqrt) ==> Dot(r, r) == 1.0 || Dot(r, r) == 0.0
  {
    NormalToWorldWithin(arena, id, n, sqrt, |arena|)
  }

  /** The recursion equations of NormalToWorld. */
  lemma NormalToWorldStep(arena: seq<Shape>, id: ShapeId, n: Tuple, sqrt: real -> real)
    requires Acyclic(arena) && id < |arena|
    ensures arena[id].parent.None? ==>
      NormalToWorld(arena, id, n, sqrt) == PromoteNormal(arena[id], n, sqrt)
    ensures arena[id].parent.Some? ==>
      arena[id].parent.value < |arena| &&
      NormalToWorld(arena, id, n, sqrt) ==
        NormalToWorld(arena, arena[id].parent.value, PromoteNormal(arena[id], n, sqrt), sqrt)
  {
    assert RootedWithin(arena, id, |arena|);
    match arena[id].parent
    case None =>
    case Some(q) => NormalToWorldFuel(arena, q, PromoteNormal(arena[id], n, sqrt), sqrt, |arena| - 1, |arena|);
  }

  /** One level of PerpendicularWithin: the inverse-transpose keeps a normal perpendicular to
      the image of a tangent vector. */
  lemma PromoteNormalPerpendicular(s: Shape, n: Tuple, v: Tuple, sqrt: real -> real)
    requires s.Valid() && IsAffine(s.transformation) && IsSqrt(sqrt)
    requires v.w == 0.0 && Dot(n, v) == 0.0
    ensures Apply(s.transformation, v).w == 0.0
    ensures Dot(PromoteNormal(s, n, sqrt), Apply(s.transformation, v)) == 0.0
  {
    var m, inv := s.transformation, s.transformationInverse;
    var u := Apply(m, v);
    ApplyAffineKeepsW(m, v);
    var a := Apply(s.transformationInverseTranspose, n);
    TransposeAdjoint(inv, n, u);
    InverseRoundTrip(m, inv, v);
    assert Dot(a, u) == 0.0;
    assert Dot(DropW(a), u) == Dot(a, u);
    var r := PromoteNormal(s, n, sqrt);
    assert exists k: real :: k > 0.0 && r == Scale(k, DropW(a));
    var k: real :| k > 0.0 && r == Scale(k, DropW(a));
    DotScaleLeft(k, DropW(a), u);
  }

  lemma {:induction false} PerpendicularWithin(arena: seq<Shape>, id: ShapeId, n: Tuple, v: Tuple, sqrt: real -> real, fuel: nat)
    requires RootedWithin(arena, id, fuel) && ArenaValid(arena) && ArenaAffine(arena) && IsSqrt(sqrt)
    requires v.w == 0.0 && Dot(n, v) == 0.0
    ensures Dot(NormalToWorldWithin(arena, id, n, sqrt, fuel), ObjectToWorldWithin(arena, id, v, fuel)) == 0.0
    decreases fuel
  {
    var s := arena[id];
    PromoteNormalPerpendicular(s, n, v, sqrt);
    match s.parent
    case None =>
    case Some(q) =>
      PerpendicularWithin(arena, q, PromoteNormal(s, n, sqrt), Apply(s.transformation, v), sqrt, fuel - 1);
  }

  /** Promoting normals through inverse-transposes is what keeps them normal: a local normal
      perpendicular to a local tangent vector stays perpendicular to that vector's world image,
      for any depth of nesting of affine transformations. */
  lemma NormalToWorldPerpendicular(arena: seq<Shape>, id: ShapeId, n: Tuple, v: Tuple, sqrt: real -> real)
    requires Acyclic(arena) && ArenaValid(arena) && ArenaAffine(arena) && IsSqrt(sqrt) && id < |arena|
    requires v.w == 0.0 && Dot(n, v) == 0.0
    ensures Dot(NormalToWorld(arena, id, n, sqrt), ObjectToWorld(arena, id, v)) == 0.0
  {
    PerpendicularWithin(arena, id, n, v, sqrt, |arena|);
  }

  // ---- intersect, normalAt ----

  /** The world ray in the object space of shape `s`: only the shape's own inverse is applied. */
  function LocalRay(s: Shape, r: Ray): Ray
    reads s
  {
    TransformRay(r, s.transformationInverse)
  }

  /** The intersections of a world ray with shape `id`: the kind's local intersection
      parameters for the ray in the shape's object space, each tagged with the shape itself. */
  function Intersect(arena: seq<Shape>, id: ShapeId, r: Ray, geo: Geometry): (xs: seq<Intersection>)
    requires id < |arena|
    reads arena
    ensures var ts := geo.localIntersection(arena[id].kind, LocalRay(arena[id], r));
      |xs| == |ts| && forall i :: 0 <= i < |xs| ==> xs[i] == Intersection(ts[i], id)
  {
    var s := arena[id];
    var ts := geo.localIntersection(s.kind, LocalRay(s, r));
    seq(|ts|, i requires 0 <= i < |ts| => Intersection(ts[i], id))
  }

  /** A parameter found in object space names the same point in the shape's parent space: the
      object-space point, mapped forward, is the point reached along the original ray. */
  lemma IntersectParameterInvariant(arena: seq<Shape>, id: ShapeId, r: Ray, geo: Geometry)
    requires id < |arena| && arena[id].Valid()
    ensures forall x :: x in Intersect(arena, id, r, geo) ==>
      x.shape == id &&
      Apply(arena[id].transformation, Position(LocalRay(arena[id], r), x.t)) == Position(r, x.t)
  {
    var s := arena[id];
    forall x | x in Intersect(arena, id, r, geo)
      ensures Apply(s.transformation, Position(LocalRay(s, r), x.t)) == Position(r, x.t)
    {
      TransformRayPosition(r, s.transformationInverse, x.t);
      InverseRoundTrip(s.transformation, s.transformationInverse, Position(r, x.t));
    }
  }

  /** The world-space normal of shape `id` at a world point: the point taken to object space,
      the kind's local normal there, promoted back to world space. */
  function NormalAt(arena: seq<Shape>, id: ShapeId, p: Tuple, geo: Geometry, sqrt: real -> real): (r: Tuple)
    requires Acyclic(arena) && id < |arena|
    reads arena
    ensures r.w == 0.0
    ensures IsSqrt(sqrt) ==> Dot(r, r) == 1.0 || Dot(r, r) == 0.0
  {
    NormalToWorld(arena, id, geo.localNormalAt(arena[id].kind, WorldToObject(arena, id, p)), sqrt)
  }

  /** For an untransformed root shape object space is world space, and the world normal is
      the local one when that is already a unit vector. */
  lemma NormalAtUntransformedRoot(arena: seq<Shape>, id: ShapeId, p: Tuple, geo: Geometry, sqrt: real -> real)
    requires Acyclic(arena) && id < |arena| && arena[id].parent == None && sqrt(1.0) == 1.0
    requires arena[id].transformationInverse == Identity
    requires arena[id].transformationInverseTranspose == Identity
    requires var n := geo.localNormalAt(arena[id].kind, p); n.w == 0.0 && Dot(n, n) == 1.0
    ensures NormalAt(arena, id, p, geo, sqrt) == geo.localNormalAt(arena[id].kind, p)
  {
    WorldToObjectStep(arena, id, p);
    ApplyIdentity(p);
    var n := geo.localNormalAt(arena[id].kind, p);
    NormalToWorldStep(arena, id, n, sqrt);
    ApplyIdentity(n);
    assert DropW(n) == n;
    NormalizeUnit(n, sqrt);
  }

  /** The same for a true square root, which maps 1 to 1. */
  lemma NormalAtUntransformedRootTrueSqrt(arena: seq<Shape>, id: ShapeId, p: Tuple, geo: Geometry, sqrt: real -> real)
    requires Acyclic(arena) && id < |arena| && arena[id].parent == None && IsSqrt(sqrt)
    requires arena[id].transformationInverse == Identity
    requires arena[id].transformationInverseTranspose == Identity
    requires var n := geo.localNormalAt(arena[id].kind, p); n.w == 0.0 && Dot(n, n) == 1.0
    ensures NormalAt(arena, id, p, geo, sqrt) == geo.localNormalAt(arena[id].kind, p)
  {
    SqrtOne(sqrt);
    NormalAtUntransformedRoot(arena, id, p, geo, sqrt);
  }

  /** NormalAt composes the three steps; with the round trip, a world point that is the image
      of an object-space point `lp` gets the promoted local normal at `lp`. */
  lemma NormalAtObjectPoint(arena: seq<Shape>, id: ShapeId, lp: Tuple, geo: Geometry, sqrt: real -> real)
    requires Acyclic(arena) && ArenaValid(arena) && id < |arena|
    ensures NormalAt(arena, id, ObjectToWorld(arena, id, lp), geo, sqrt) ==
            NormalToWorld(arena, id, geo.localNormalAt(arena[id].kind, lp), sqrt)
  {
    WorldObjectRoundTrip(arena, id, lp);
  }
}
