# Ray tracer geometric core in Dafny

This project models the geometric core of a CPU ray tracer written in C++. It covers three
parts, over exact reals:

- **Shape nodes** (`Shapes`). A `Shape` object holds:
  - a transformation and its cached inverse and inverse-transpose;
  - a shared `Material`;
  - an optional parent;
  - a shadow flag.

  Its setters overwrite fields in place. Shape nodes map points and normals between world
  space and object space along the parent chain. They also intersect rays in their own
  object space, compute world-space normals and map their local bounds into parent space.
- **Hit selection** (`Intersections`). `Hit` picks the intersection with the smallest
  non-negative `t` from an unsorted list.
- **Hit preparation** (`PreparedHits`, `Refraction`). This part computes:
  - the point, eye vector and eye-facing normal;
  - the inside flag;
  - the over and under points;
  - the reflection vector;
  - the refractive indices `n1`/`n2`, from a walk of the intersection list that keeps the
    current "containers";
  - Schlick's reflectance approximation.

Supporting modules:

- `Tuples`: homogeneous 4-tuples, rays, normalization with a caller-supplied square root, and reflection.
- `Matrices`: 4×4 matrices, products, transposes, inverse pairs and ray transformation.
- `Bounds`: axis-aligned boxes.
- `Options`: an `Option` type.
- `Fixtures`: the numeric expectations of the test file for reflection, the nudged points
  and Schlick, stated over the quantities they depend on.

Shapes live in an arena, a `seq<Shape>`. A shape refers to its parent, and an intersection
refers to its shape, by arena index. The parent chain is acyclic when every chain reaches a
root within `|arena|` steps. The recursive mappings are defined with that bound as fuel, and
lemmas (`WorldToObjectStep`, `NormalToWorldStep`) give back the source's one-level recursion
equations.

Two choices about the tests deserve a note:

- **Containers rule.** A stack rule that pops a shape only when it is on top of the
  containers stack does not reproduce the three-spheres fixture
  (test/TestIntersection.cpp:138-151). That fixture only gives its expected values when an
  exited shape is removed from the list wherever it stands. The model uses removal by
  membership (`Refraction.Toggle`). `Refraction.PopTopRuleDiffers` proves that the top-only
  rule gives 2.0 where the fixture expects 2.5.
- **Nudged point.** The test "The point is offset" (test/TestIntersection.cpp:105-112)
  expects `getPoint()` to lie strictly off the surface at z = -1. So the source's prepared
  point is already the nudged one. The model differs here: it keeps the exact point as
  `point` and states that bound for `overPoint` (`Fixtures.OffsetPointsAtUnitSphere`). See
  the `PreparedHits.PrepareHit` line under "## Left out".

## Model

| member | source | states |
|---|---|---|
| Shapes.Shape.constructor | src/shapes/shape.cpp:23-30 | A new shape has the given kind, identity transformation, inverse and inverse-transpose, a fresh material of refractive index 1.0, no parent, and casts shadows |
| Shapes.UntransformedShapeValid | src/shapes/shape.cpp:25-27 | Identity transformation and identity caches agree, so a freshly constructed shape satisfies the cache invariant `Valid()` |
| Shapes.IdentityCachesAgree | src/shapes/shape.cpp:25-27 | The identity is its own inverse and that inverse's transpose |
| Shapes.Shape.SetTransformation | src/shapes/shape.cpp:52-68 | Afterwards the transformation is `t`, the inverse cache is the unique inverse of `t`, the inverse-transpose cache is its transpose, `Valid()` holds, and material, parent and shadow flag are unchanged; one method stands for all three overloads |
| Shapes.Shape.SetMaterial | src/shapes/shape.cpp:78-88 | Only the material handle changes; transformation, both caches, parent and shadow flag keep their values |
| Shapes.Shape.SetParent | src/shapes/shape.cpp:94-96 | Only the parent changes; transformation, both caches, material and shadow flag keep their values |
| Shapes.Shape.SetCastsShadow | src/shapes/shape.cpp:102-104 | Only the shadow flag changes; transformation, both caches, material and parent keep their values |
| Shapes.Shape.Equals | src/shapes/shape.cpp:32-38 | Defines structural equality: same kind, transformation, shadow flag and material contents, and then `DoCompare`. The parent and the caches are not compared. Its properties are in `EqualsIsEquivalence` and `EqualShapesShareCaches` |
| Shapes.Shape.NotEquals | src/shapes/shape.cpp:40-42 | Defines `!=` as the negation of `Equals` (stated in `EqualsIsEquivalence`) |
| Shapes.Shape.DoCompare | src/shapes/shape.h:74-76 | The default kind-specific comparison, which accepts every pair of shapes |
| Shapes.EqualsIsEquivalence | src/shapes/shape.cpp:32-42 | Equality (same kind, transformation, shadow flag, material contents, then the default `DoCompare`, which accepts) is reflexive, symmetric and transitive, and `!=` is exactly its negation |
| Shapes.EqualShapesShareCaches | src/shapes/shape.h:39-43 | Equality does not compare the caches, but two equal shapes with valid caches have the same inverse and inverse-transpose |
| Shapes.Shape.ParentSpaceBounds | src/shapes/shape.cpp:133-135 | The parent-space box is the smallest box around the images of the local bounds' corners under the forward transformation: it contains every image, and each of its faces touches one of them |
| Bounds.TransformBox | src/shapes/shape.cpp:134 | The transformed box contains the image of each of the eight corners of the original box, and each of its faces touches one of those images, so it is the smallest such box |
| Bounds.BoxAround | src/shapes/shape.cpp:134 | The box built around a non-empty list of points contains every one of them, each of its six faces touches one of them, and its corners are points |
| Bounds.TransformBoxIdentity | src/shapes/shape.cpp:133-135 | For an untransformed shape the parent-space bounds are the local bounds: the identity maps a well-formed box to itself |
| Shapes.WorldToObject | src/shapes/shape.cpp:121-123 | Defines the world-to-object mapping along the parent chain, bounded by the arena size as fuel. Its recursion equations are `WorldToObjectStep` and its inverse is in `WorldObjectRoundTrip` |
| Shapes.WorldToObjectStep | src/shapes/shape.cpp:121-123 | For a root the object-space point is the inverse applied to the world point; for a child it is this shape's inverse applied to the parent's object-space point, so the ancestors' inverses are applied first |
| Shapes.WorldObjectRoundTrip | src/shapes/shape.cpp:121-123 | In an arena of valid shapes, mapping world to object space and object space back to world gives back the point, in both orders and at any nesting depth |
| Matrices.InverseRoundTrip | src/shapes/shape.cpp:122 | Applying a matrix and then its inverse, or the inverse and then the matrix, gives back the tuple |
| Matrices.InverseUnique | src/shapes/shape.cpp:54 | A matrix has at most one inverse, so the inverse cache is determined by the transformation |
| Matrices.InvertIs | src/shapes/shape.cpp:54 | Any inverse of `m` is the inverse `Invert(m)` that the cache must hold |
| Shapes.PromoteNormal | src/shapes/shape.cpp:126-129 | One level of normal promotion gives a vector (w = 0) that is a positive multiple of the inverse-transpose image of the normal with w dropped |
| Shapes.NormalToWorld | src/shapes/shape.cpp:125-131 | The world normal is a vector and, with a true square root, has length 1 (or is the zero vector) |
| Shapes.NormalToWorldStep | src/shapes/shape.cpp:125-131 | A root returns its own promoted normal; a child passes its promoted normal on to the parent's normal mapping |
| Shapes.NormalToWorldPerpendicular | src/shapes/shape.cpp:125-131 | With affine transformations at every level, a local normal perpendicular to a local tangent vector stays perpendicular to that vector's world image |
| Matrices.TransposeAdjoint | src/shapes/shape.cpp:126 | Transposition moves a matrix across the dot product, (aᵀ·n)·u = n·(a·u); applied to the inverse, this is why the inverse-transpose keeps normals perpendicular to transformed tangents |
| Tuples.Normalize | src/shapes/shape.cpp:127-129 | The normalized vector is a positive multiple of the input and, with a true square root, has length 1 or 0 |
| Tuples.NormalizeUnit | src/shapes/shape.cpp:127-129 | A unit vector is left unchanged by normalization |
| Shapes.LocalRay | src/shapes/shape.cpp:108 | Defines the object-space ray as the world ray mapped by the shape's own inverse only; `IntersectParameterInvariant` shows that parameters along it name the same points |
| Shapes.Intersect | src/shapes/shape.cpp:106-112 | The intersections correspond one to one to the local intersection parameters of the ray transformed by the shape's own inverse only, and each names the shape itself |
| Shapes.IntersectParameterInvariant | test/TestIntersection.cpp:33-40 | Every intersection names the intersected shape, and its parameter, taken along the object-space ray and mapped forward, is the point reached along the original ray |
| Matrices.TransformRayPosition | src/shapes/shape.cpp:108 | Transforming a ray and then travelling `t` along it is the same as transforming the point reached along the original ray |
| Shapes.NormalAt | src/shapes/shape.cpp:114-119 | The world normal at a point is a vector of length 1 or 0 (with a true square root) |
| Shapes.NormalAtObjectPoint | src/shapes/shape.h:64-68 | At the world image of an object-space point, the normal is the local normal at that object-space point carried back to world space |
| Shapes.NormalAtUntransformedRoot | src/shapes/shape.cpp:114-119 | For an untransformed root shape with a unit local normal, the world normal is the local normal |
| Shapes.NormalAtUntransformedRootTrueSqrt | src/shapes/shape.cpp:114-119 | The same for any true square root (one maps 1 to 1, by `Tuples.SqrtOne`) |
| Intersections.Hit | test/TestIntersection.cpp:42-77 | No hit exactly when every `t` is negative; otherwise the hit is an entry of the list with non-negative `t` no greater than that of any other non-negative entry |
| Intersections.HitIsEarliest | test/TestIntersection.cpp:68-77 | Of entries with equal `t` the hit is the earliest: no entry before its position has its `t`. This tie-break is the model's own choice; the fixtures all have distinct `t` |
| Intersections.HitTimeUnique | test/TestIntersection.cpp:68-77 | Any two entries that qualify as the hit have the same `t` |
| Intersections.HitIgnoresOrder | test/TestIntersection.cpp:68-77 | Permuting the list does not change whether there is a hit or the hit's `t` |
| Intersections.HitFixtures | test/TestIntersection.cpp:42-77 | The four hit fixtures: (1, 2) gives 1; (-1, 1) gives 1; (-1, -2) gives none; (5, 7, -3, 2) gives 2 |
| PreparedHits.PrepareHit | test/TestIntersection.cpp:79-163 | The point is origin + t·direction and the eye is -direction. `inside` holds exactly when the outward normal opposes the eye, and the normal is then negated, so it never points away from the eye. The over and under points lie Epsilon·n along and against the normal. The reflection is direction reflected about the normal. n1/n2 are those of the containers walk |
| PreparedHits.OffsetAlongNormal | test/TestIntersection.cpp:105-112 | Moving by ±Epsilon along the normal changes the component along it by ±Epsilon·(n·n): the over point is on the normal's side, the under point on the other |
| Fixtures.OffsetPointsAtUnitSphere | test/TestIntersection.cpp:105-163 | At a hit at z = -1 with normal -z, the over point's z lies in (-1.1, -1), as the test at 105-112 expects, and the under point's z in (-1, -0.9), as the test at 155-163 expects |
| Tuples.Reflect | test/TestIntersection.cpp:114-122 | Defines reflection as d − 2(d·n)n. Its properties are in `ReflectFlipsNormalComponent`, `ReflectKeepsTangent` and `ReflectInvolution` |
| Tuples.ReflectFlipsNormalComponent | test/TestIntersection.cpp:114-122 | About a unit normal, reflection negates the component of the direction along the normal |
| Tuples.ReflectKeepsTangent | test/TestIntersection.cpp:114-122 | Reflection keeps the component along any direction orthogonal to the normal |
| Tuples.ReflectInvolution | test/TestIntersection.cpp:114-122 | Reflecting twice about a unit normal gives the original direction |
| PreparedHits.MirrorAngle | test/TestIntersection.cpp:114-122 | The reflected vector makes the same angle with the normal as the eye vector, and reflects back to the incoming direction |
| Fixtures.ReflectionAt45Degrees | test/TestIntersection.cpp:114-122 | A direction (0, -c, c) reflected about the +y normal is (0, c, c) |
| Refraction.RefractiveIndices | test/TestIntersection.cpp:124-153 | The loop that updates the containers list in place returns the (n1, n2) of the walk specification `RefractiveIndicesOf` |
| Refraction.RefractiveIndicesOf | test/TestIntersection.cpp:124-153 | With the hit absent both indices are vacuum (1.0); each index is vacuum or the refractive index of a shape named in the list |
| Refraction.Toggle | test/TestIntersection.cpp:138-151 | Defines one step of the walk: a listed shape is removed wherever it stands, any other shape is appended. Its properties are in `ToggleFacts` |
| Refraction.ContainersAfter | test/TestIntersection.cpp:148-152 | Defines the containers after a prefix of the list as repeated `Toggle` from the empty list. Its properties are in `ContainersWellFormed` and `ContainersParity` |
| Refraction.IndexOf | test/TestIntersection.cpp:145-146 | Defines the refractive index of the innermost (last) container, or 1.0 when there is none |
| Refraction.ToggleFacts | test/TestIntersection.cpp:138-151 | A listed shape is removed wherever it stands (one copy fewer) and an unlisted one appended; no other shape changes membership, and a duplicate-free list stays duplicate-free |
| Refraction.ContainersWellFormed | test/TestIntersection.cpp:124-153 | After any prefix of the walk, every container is a shape crossed so far and none is listed twice |
| Refraction.ContainersParity | test/TestIntersection.cpp:124-153 | A shape is a container exactly when it has been crossed an odd number of times so far |
| Refraction.ToggleTwice | test/TestIntersection.cpp:138-151 | Entering a shape and then leaving it restores the containers |
| Refraction.EnterThenLeave | test/TestIntersection.cpp:138-151 | Two consecutive crossings of a shape that was not a container leave the containers as they were before |
| Refraction.IndicesChain | test/TestIntersection.cpp:145-146 | The n1 at one crossing is the n2 at the crossing before it |
| Refraction.NestedSpheresWalk | test/TestIntersection.cpp:138-143 | For a list crossing shapes 0, 1, 2, 1, 2, 0 (the test's sphere1, sphere2, sphere3), the containers after each crossing are [], [0], [0,1], [0,1,2], [0,2], [0], [] |
| Refraction.NestedSpheresIndices | test/TestIntersection.cpp:124-153 | With indices 1.5, 2.0 and 2.5, the six crossings give (1, 1.5), (1.5, 2), (2, 2.5), (2.5, 2.5), (2.5, 1.5), (1.5, 1) |
| Refraction.PopTopRuleDiffers | test/TestIntersection.cpp:138-151 | On the same list a rule that pops only the top shape leaves [0,1,2,1] after four crossings and gives index 2.0 where membership removal gives the expected 2.5 |
| Refraction.SingleCrossing | test/TestIntersection.cpp:155-163 | A single crossing of a glass shape enters it: n1 is vacuum, n2 the shape's index |
| Refraction.CrossingTwice | test/TestIntersection.cpp:165-184 | For a list crossing one shape at -a and a, the first crossing goes from vacuum into the shape and the second from the shape back to vacuum |
| PreparedHits.Schlick | test/TestIntersection.cpp:165-193 | Defines the reflectance. It is 1 under total internal reflection. Otherwise it is r0 + (1 − r0)(1 − c)⁵, where c is the eye-normal cosine, or the transmitted cosine when leaving a denser medium. Its properties are the three `Schlick…` lemmas below |
| PreparedHits.TotalInternalReflection | test/TestIntersection.cpp:165-174 | Defines total internal reflection: leaving a denser medium with (n1/n2)²(1 − cos²) > 1 |
| PreparedHits.TransmittedCosine | test/TestIntersection.cpp:176-184 | Defines the cosine of the transmitted angle, sqrt(1 − (n1/n2)²(1 − cos²)); `TransmittedCosineInUnitInterval` bounds it |
| PreparedHits.R0 | test/TestIntersection.cpp:176-184 | Defines the reflectance at normal incidence, ((n1 − n2)/(n1 + n2))²; `R0InUnitInterval` bounds it |
| PreparedHits.SchlickTotalInternalReflection | test/TestIntersection.cpp:165-174 | When (n1/n2)²(1 − cos²) > 1 while leaving a denser medium, the reflectance is exactly 1 |
| Fixtures.GlassToVacuumAt45Degrees | test/TestIntersection.cpp:165-174 | Leaving glass (1.5) for vacuum with cos² = 0.5 is total internal reflection |
| Fixtures.SchlickGlassAt45Degrees | test/TestIntersection.cpp:165-174 | Inside glass looking out at 45 degrees the reflectance is exactly 1.0 |
| PreparedHits.SchlickNormalIncidence | test/TestIntersection.cpp:176-184 | At normal incidence (cos = 1) the reflectance is r0 = ((n1 − n2)/(n1 + n2))², on either side of the surface |
| Fixtures.SchlickGlassPerpendicular | test/TestIntersection.cpp:176-184 | Glass to vacuum at normal incidence gives exactly 0.04 |
| PreparedHits.R0InUnitInterval | test/TestIntersection.cpp:176-184 | For positive indices, r0 lies in [0, 1] |
| PreparedHits.SchlickInUnitInterval | test/TestIntersection.cpp:165-193 | For positive indices, a cosine in [0, 1] and a true square root, the reflectance lies in [0, 1] |
| PreparedHits.TransmittedCosineInUnitInterval | test/TestIntersection.cpp:176-184 | Short of total internal reflection, the transmitted cosine sqrt(1 − sin²t) lies in [0, 1] |
| PreparedHits.SchlickMatchedMedia | test/TestIntersection.cpp:165-193 | A derived property of Schlick that no fixture exercises: between media of equal index only the (1 − cos)⁵ term remains, so nothing is reflected at normal incidence |

## Left out

- Matrix inversion: `Shapes.Shape.SetTransformation` takes the inverse from the caller. It requires that this is an inverse of `t`, and `Matrices.InverseUnique` shows that it is the only one. `affine_transform.h` is not part of this model; a singular matrix has no inverse here.
- Square root: it is a parameter `sqrt: real -> real`. Properties that need a true square root assume `IsSqrt(sqrt)`, and those that only need sqrt(1) = 1 assume just that. A zero vector is normalized to itself.
- Intersections.HitIsEarliest: the tests do not pin a tie-break between entries of equal `t` (every fixture of test/TestIntersection.cpp:42-77 has distinct `t`, and intersection.cpp is not part of this model); taking the earliest is the model's choice.
- Shapes.Shape.DoCompare: kind-specific overrides are not modelled. src/shapes/shape.h:39-42 and 71-76 make `doCompare` the hook through which a kind with extra state compares it. Here it accepts for every kind, so `Equals` compares only the common fields. `Shapes.EqualsIsEquivalence` relies on this.
- PreparedHits.PrepareHit: `point` is the exact surface point origin + t·direction. The source's `getPoint()` is already nudged off the surface (test/TestIntersection.cpp:105-112 needs its z strictly below -1). In the model that nudged point is `overPoint`. For the exact prepared point the test's bound does not hold.
- Concrete shape kinds: the kind-specific `localIntersection`, `localNormalAt` and `bounds` (src/shapes/shape.h:82-90) are function values passed in as a `Geometry`. The sphere, plane and other kinds are not part of this model. The local intersection returns the parameters, and `Shapes.Intersect` tags each one with the shape. This tagging is what test/TestIntersection.cpp:33-40 checks. Because the geometry is keyed by kind alone, two shapes of one kind intersect, take normals and are bounded alike; kinds whose instances carry their own data (a triangle's vertices, a group's children) are not told apart. No proof depends on this.
- Bounding boxes: `bounding_box.h` is not part of this model. The transformed box is taken as the box around the images of the eight corners.
- Materials: only the refractive index is modelled. Material equality is equality of that index.
- Floating point: all arithmetic is exact. The tests compare tuples and reflectances within a tolerance, and the model states exact equalities where they hold.
- Epsilon: the over/under distance is 0.0001. `constmath.h` is not part of this model.
- The small-angle Schlick fixture (test/TestIntersection.cpp:186-193, 0.48873) is left out. It holds only approximately in floating point. The non-TIR formula is modelled and bounded by `PreparedHits.SchlickInUnitInterval` instead.
- `PreparedHits.Schlick` requires positive refractive indices, which every material has. `intersection.cpp` is not part of this model, and the model takes cos as the eye-normal cosine, replaced by the transmitted cosine when leaving a denser medium.
- Hit not in the list: when the prepared intersection does not occur in the list, both indices are vacuum (1.0). The source leaves this case unspecified.
- Shapes.Shape.constructor: it does not state `Valid()` directly. It states the identity matrices, and `Shapes.UntransformedShapeValid` derives `Valid()` from them.
- Numeric fixtures: the precompute, outside and inside fixtures (test/TestIntersection.cpp:79-103) are covered by the general contract of `PreparedHits.PrepareHit`. They are not replayed with a sphere, because the sphere's geometry is not modelled. The offset, reflection and Schlick fixtures are stated in `Fixtures` over the quantities they depend on.
- The header-only constructors of src/shapes/shape.h:33-37 and the by-value `Material` field of src/shapes/shape.h:94 are not modelled; the model follows shape.cpp. The getters (src/shapes/shape.cpp:44-50, 70-76, 90-92, 98-100) are plain field reads of the model's class.
- Memory and identity: `shared_ptr` ownership, `InstanceManager` and the object-duplication workaround (src/shapes/shape.h:21-28) are replaced by arena indices. Shape identity in intersections is index equality.
- Sorting: the sorting of intersection lists before preparation is not modelled. The walk works on the list as given, and `ContainersParity` states what it computes for any order.
