/** The refractive indices on either side of a hit (n1, the medium the ray leaves, and n2,
    the medium it enters), found by walking the sorted intersection list while keeping the
    list of shapes the ray is currently inside (its "containers"). */
module Refraction {
  import opened Intersections
  import opened Shapes

  /** The refractive index of the vacuum outside every shape. */
  const VacuumIndex: real := 1.0

  /** No shape is listed twice. */
  predicate NoDup(c: seq<ShapeId>) {
    forall i, j :: 0 <= i < j < |c| ==> c[i] != c[j]
  }

  /** The position of the first element of `xs` equal to `h`. */
  function FirstIndex<T(==)>(xs: seq<T>, h: T): (k: nat)
    requires h in xs
    ensures k < |xs| && xs[k] == h && h !in xs[..k]
  {
    if xs[0] == h then 0
    else
      var k := FirstIndex(xs[1..], h);
      assert xs[1..][..k] == xs[1..k + 1];
      assert xs[..k + 1] == [xs[0]] + xs[1..k + 1];
      k + 1
  }

  /** An element that is not preceded by an equal one is found at its own position. */
  lemma FirstIndexAt<T>(xs: seq<T>, k: nat)
    requires k < |xs| && xs[k] !in xs[..k]
    ensures FirstIndex(xs, xs[k]) == k
  {
    var f := FirstIndex(xs, xs[k]);
    assert xs[..f + 1][f] == xs[k];
  }

  /** `c` with its first occurrence of `s` deleted. */
  function RemoveFirst(c: seq<ShapeId>, s: ShapeId): (r: seq<ShapeId>)
    requires s in c
  {
    var i := FirstIndex(c, s);
    c[..i] + c[i + 1..]
  }

  /** One step of the walk: a shape already in the list is being exited and is removed from
      it, wherever it stands; any other shape is being entered and is appended. */
  function Toggle(c: seq<ShapeId>, s: ShapeId): seq<ShapeId> {
    if s in c then RemoveFirst(c, s) else c + [s]
  }

  /** Toggling removes exactly one copy of a listed shape and appends an unlisted one; no
      other shape changes its membership, and a list without duplicates stays so, with `s`
      listed afterwards exactly when it was not listed before. */
  lemma ToggleFacts(c: seq<ShapeId>, s: ShapeId)
    ensures s !in c ==> Toggle(c, s) == c + [s]
    ensures s in c ==> multiset(Toggle(c, s)) == multiset(c) - multiset{s}
    ensures forall e :: e != s ==> (e in Toggle(c, s) <==> e in c)
    ensures NoDup(c) ==> NoDup(Toggle(c, s)) && (s in Toggle(c, s) <==> s !in c)
  {
    if s in c {
      RemovalFacts(c, s);
    } else if NoDup(c) {
      forall a, b | 0 <= a < b < |c| + 1 ensures (c + [s])[a] != (c + [s])[b] {
        if b == |c| { assert (c + [s])[a] == c[a]; }
      }
    }
  }

  lemma RemovalFacts(c: seq<ShapeId>, s: ShapeId)
    requires s in c
    ensures multiset(RemoveFirst(c, s)) == multiset(c) - multiset{s}
    ensures forall e :: e != s ==> (e in RemoveFirst(c, s) <==> e in c)
    ensures NoDup(c) ==> NoDup(RemoveFirst(c, s)) && s !in RemoveFirst(c, s)
  {
    var r := RemoveFirst(c, s);
    var i := FirstIndex(c, s);
    RemovalMultiset(c, i);
    forall e | e != s ensures e in r <==> e in c {
      assert e in r <==> e in multiset(r);
      assert e in c <==> e in multiset(c);
    }
    if NoDup(c) {
      RemovalNoDup(c, i);
    }
  }

  lemma RemovalMultiset(c: seq<ShapeId>, i: nat)
    requires i < |c|
    ensures multiset(c[..i] + c[i + 1..]) == multiset(c) - multiset{c[i]}
  {
    assert c == c[..i] + [c[i]] + c[i + 1..];
  }

  lemma RemovalNoDup(c: seq<ShapeId>, i: nat)
    requires i < |c| && NoDup(c)
    ensures NoDup(c[..i] + c[i + 1..]) && c[i] !in c[..i] + c[i + 1..]
  {
    var r := c[..i] + c[i + 1..];
    assert forall j :: 0 <= j < |r| ==> r[j] == c[if j < i then j else j + 1];
  }

  /** Toggling a shape that is not in the list twice gives the list back: entering and then
      leaving a shape restores the containers. */
  lemma ToggleTwice(c: seq<ShapeId>, s: ShapeId)
    requires s !in c
    ensures Toggle(Toggle(c, s), s) == c
  {
    var c1 := c + [s];
    assert c1[|c|] == s && c1[..|c|] == c;
    FirstIndexAt(c1, |c|);
  }

  /** The containers after walking the first `k` entries of `xs`. */
  function ContainersAfter(xs: seq<Intersection>, k: nat): seq<ShapeId>
    requires k <= |xs|
    decreases k
  {
    if k == 0 then [] else Toggle(ContainersAfter(xs, k - 1), xs[k - 1].shape)
  }

  /** Every container comes from one of the entries walked so far, and none is listed twice. */
  lemma {:induction false} ContainersWellFormed(xs: seq<Intersection>, k: nat)
    requires k <= |xs|
    ensures forall e :: e in ContainersAfter(xs, k) ==> exists i :: 0 <= i < k && xs[i].shape == e
    ensures NoDup(ContainersAfter(xs, k))
    decreases k
  {
    if k > 0 {
      ContainersWellFormed(xs, k - 1);
      ToggleFacts(ContainersAfter(xs, k - 1), xs[k - 1].shape);
    }
  }

  /** Every container is a shape of the arena when every entry is. */
  lemma ContainersInArena(xs: seq<Intersection>, k: nat, arena: seq<Shape>)
    requires k <= |xs| && InArena(xs, arena)
    ensures forall e :: e in ContainersAfter(xs, k) ==> e < |arena|
  {
    ContainersWellFormed(xs, k);
  }

  /** Toggling a shape into or out of a list without duplicates flips that shape's
      membership and no other. */
  lemma ToggleMembership(c: seq<ShapeId>, s: ShapeId, e: ShapeId)
    requires NoDup(c)
    ensures e in Toggle(c, s) <==> (if e == s then e !in c else e in c)
  {
    ToggleFacts(c, s);
  }

  /** How many of the first `k` entries of `xs` belong to shape `e`. */
  function Occurrences(xs: seq<Intersection>, k: nat, e: ShapeId): nat
    requires k <= |xs|
    decreases k
  {
    if k == 0 then 0
    else Occurrences(xs, k - 1, e) + (if xs[k - 1].shape == e then 1 else 0)
  }

  /** A shape is a container exactly when the ray has crossed its surface an odd number of
      times so far: the walk tracks inside/outside by parity, whatever the order of the
      crossings of different shapes. */
  lemma {:induction false} ContainersParity(xs: seq<Intersection>, k: nat, e: ShapeId)
    requires k <= |xs|
    ensures e in ContainersAfter(xs, k) <==> Occurrences(xs, k, e) % 2 == 1
    decreases k
  {
    if k > 0 {
      ContainersParity(xs, k - 1, e);
      var c := ContainersAfter(xs, k - 1);
      var s := xs[k - 1].shape;
      ContainersWellFormed(xs, k - 1);
      ToggleMembership(c, s, e);
      assert Occurrences(xs, k, e) == Occurrences(xs, k - 1, e) + (if e == s then 1 else 0);
    }
  }

  /** The refractive index of the innermost container, or vacuum when there is none. */
  function IndexOf(c: seq<ShapeId>, arena: seq<Shape>): (n: real)
    requires forall e :: e in c ==> e < |arena|
    reads arena, set j | 0 <= j < |arena| :: arena[j].material
  {
    if c == [] then VacuumIndex
    else
      assert c[|c| - 1] in c;
      arena[c[|c| - 1]].material.refractiveIndex
  }

  /** Every entry of the list names a shape of the arena. */
  ghost predicate InArena(xs: seq<Intersection>, arena: seq<Shape>) {
    forall i :: 0 <= i < |xs| ==> xs[i].shape < |arena|
  }

  /** The pair (n1, n2) for `hit`: n1 is the innermost container's index just before the walk
      reaches the first entry of `xs` equal to `hit`, n2 just after it. When `hit` is not in
      the list both are vacuum. Each is vacuum or the index of a shape the list names. */
  function RefractiveIndicesOf(hit: Intersection, xs: seq<Intersection>, arena: seq<Shape>): (r: (real, real))
    requires InArena(xs, arena)
    reads arena, set j | 0 <= j < |arena| :: arena[j].material
    ensures hit !in xs ==> r == (VacuumIndex, VacuumIndex)
    ensures r.0 == VacuumIndex || exists i :: 0 <= i < |xs| && r.0 == arena[xs[i].shape].material.refractiveIndex
    ensures r.1 == VacuumIndex || exists i :: 0 <= i < |xs| && r.1 == arena[xs[i].shape].material.refractiveIndex
  {
    if hit in xs then
      var k := FirstIndex(xs, hit);
      var before, after := ContainersAfter(xs, k), ContainersAfter(xs, k + 1);
      ContainersWellFormed(xs, k);
      ContainersWellFormed(xs, k + 1);
      assert before != [] ==> before[|before| - 1] in before;
      assert after != [] ==> after[|after| - 1] in after;
      (IndexOf(before, arena), IndexOf(after, arena))
    else
      (VacuumIndex, VacuumIndex)
  }

  /** The walk of the intersection list, as a loop that updates the containers list in place;
      it stops at the first entry equal to `hit`. */
  method RefractiveIndices(hit: Intersection, xs: seq<Intersection>, arena: seq<Shape>) returns (n1: real, n2: real)
    requires InArena(xs, arena)
    ensures (n1, n2) == RefractiveIndicesOf(hit, xs, arena)
  {
    var containers: seq<ShapeId> := [];
    n1, n2 := VacuumIndex, VacuumIndex;
    var i := 0;
    while i < |xs|
      invariant 0 <= i <= |xs|
      invariant containers == ContainersAfter(xs, i)
      invariant hit !in xs[..i]
    {
      if xs[i] == hit {
        FirstIndexAt(xs, i);
        ContainersInArena(xs, i, arena);
        ContainersInArena(xs, i + 1, arena);
        n1 := IndexOf(containers, arena);
        containers := Toggle(containers, xs[i].shape);
        assert containers == ContainersAfter(xs, i + 1);
        n2 := IndexOf(containers, arena);
        return;
      }
      containers := Toggle(containers, xs[i].shape);
      assert xs[..i + 1] == xs[..i] + [xs[i]];
      i := i + 1;
    }
    assert xs[..i] == xs;
  }

  /** The medium left at one crossing is the medium entered at the crossing before it. */
  lemma IndicesChain(xs: seq<Intersection>, arena: seq<Shape>, k: nat)
    requires InArena(xs, arena) && 0 < k < |xs|
    requires xs[k] !in xs[..k] && xs[k - 1] !in xs[..k - 1]
    ensures RefractiveIndicesOf(xs[k], xs, arena).0 == RefractiveIndicesOf(xs[k - 1], xs, arena).1
  {
    FirstIndexAt(xs, k);
    FirstIndexAt(xs, k - 1);
  }

  /** Entering a shape and leaving it straight away lands back in the medium the ray came
      from. */
  lemma EnterThenLeave(xs: seq<Intersection>, arena: seq<Shape>, k: nat)
    requires InArena(xs, arena) && 0 < k < |xs|
    requires xs[k - 1].shape == xs[k].shape && xs[k - 1].shape !in ContainersAfter(xs, k - 1)
    ensures ContainersAfter(xs, k + 1) == ContainersAfter(xs, k - 1)
  {
    ToggleTwice(ContainersAfter(xs, k - 1), xs[k].shape);
  }

  // ---- one glass shape ----

  /** A ray that starts outside shape 0 and meets it once enters it: from vacuum into the
      shape's material. */
  lemma SingleCrossing(arena: seq<Shape>, t: real)
    requires |arena| > 0
    ensures RefractiveIndicesOf(Intersection(t, 0), [Intersection(t, 0)], arena)
         == (VacuumIndex, arena[0].material.refractiveIndex)
  {
    var xs := [Intersection(t, 0)];
    FirstIndexAt(xs, 0);
    assert ContainersAfter(xs, 1) == Toggle([], 0);
  }

  /** A ray crossing shape 0 twice, at -a and a: at the second crossing it leaves the shape's
      material for vacuum, and at the first it had entered it. */
  lemma CrossingTwice(arena: seq<Shape>, a: real)
    requires |arena| > 0 && a != 0.0
    ensures var xs := [Intersection(-a, 0), Intersection(a, 0)];
      RefractiveIndicesOf(xs[0], xs, arena) == (VacuumIndex, arena[0].material.refractiveIndex) &&
      RefractiveIndicesOf(xs[1], xs, arena) == (arena[0].material.refractiveIndex, VacuumIndex)
  {
    var xs := [Intersection(-a, 0), Intersection(a, 0)];
    FirstIndexAt(xs, 0);
    assert xs[..1] == [xs[0]];
    FirstIndexAt(xs, 1);
    assert ContainersAfter(xs, 1) == [0];
    ToggleRemoves([0], 0);
    assert ContainersAfter(xs, 2) == [];
  }

  // ---- the three nested glass spheres of TestIntersection.cpp ----

  /** Sphere 0 (index 1.5) encloses spheres 1 (2.0) and 2 (2.5), which overlap each other. */
  const NestedSpheres: seq<Intersection> :=
    [Intersection(2.0, 0), Intersection(2.75, 1), Intersection(3.25, 2),
     Intersection(4.75, 1), Intersection(5.25, 2), Intersection(6.0, 0)]

  /** The containers after each crossing: [], [0], [0, 1], [0, 1, 2], [0, 2], [0], []. */
  const NestedSpheresContainers: seq<seq<ShapeId>> := [[], [0], [0, 1], [0, 1, 2], [0, 2], [0], []]

  /** The shapes crossed, in order. */
  const NestedSpheresShapes: seq<ShapeId> := [0, 1, 2, 1, 2, 0]

  /** A list crossing the shapes in the order of NestedSpheres. */
  predicate NestedOrder(xs: seq<Intersection>) {
    |xs| == 6 && forall i :: 0 <= i < 6 ==> xs[i].shape == NestedSpheresShapes[i]
  }

  lemma {:induction false} NestedSpheresWalk(xs: seq<Intersection>, k: nat)
    requires NestedOrder(xs) && k <= 6
    ensures ContainersAfter(xs, k) == NestedSpheresContainers[k]
  {
    if k > 0 {
      NestedSpheresWalk(xs, k - 1);
      assert xs[k - 1].shape == NestedSpheresShapes[k - 1];
      NestedSpheresStep(k);
    }
  }

  /** One crossing of the walk: toggling the k-th shape into the containers before it. */
  lemma NestedSpheresStep(k: nat)
    requires 0 < k <= 6
    ensures Toggle(NestedSpheresContainers[k - 1], NestedSpheresShapes[k - 1]) == NestedSpheresContainers[k]
  {
    var cs := NestedSpheresContainers;
    if k == 4 {
      ToggleRemoves(cs[3], 1);
    } else if k == 5 {
      ToggleRemoves(cs[4], 1);
    } else if k == 6 {
      ToggleRemoves(cs[5], 0);
    }
  }

  /** Toggling the shape at position `i` of a list without duplicates removes that position. */
  lemma ToggleRemoves(c: seq<ShapeId>, i: nat)
    requires i < |c| && NoDup(c)
    ensures Toggle(c, c[i]) == c[..i] + c[i + 1..]
  {
    assert c[i] in c;
    assert c[i] !in c[..i];
    FirstIndexAt(c, i);
  }

  /** The expected n1 and n2 at each of the six crossings: (1, 1.5), (1.5, 2), (2, 2.5),
      (2.5, 2.5), (2.5, 1.5), (1.5, 1). */
  const NestedSpheresN1: seq<real> := [1.0, 1.5, 2.0, 2.5, 2.5, 1.5]
  const NestedSpheresN2: seq<real> := [1.5, 2.0, 2.5, 2.5, 1.5, 1.0]

  lemma NestedSpheresIndices(arena: seq<Shape>, k: nat)
    requires |arena| == 3 && k < 6
    requires arena[0].material.refractiveIndex == 1.5
    requires arena[1].material.refractiveIndex == 2.0
    requires arena[2].material.refractiveIndex == 2.5
    ensures RefractiveIndicesOf(NestedSpheres[k], NestedSpheres, arena) == (NestedSpheresN1[k], NestedSpheresN2[k])
  {
    var xs := NestedSpheres;
    assert xs[k] !in xs[..k] by {
      forall j | 0 <= j < k ensures xs[..k][j] != xs[k] { assert xs[j].t != xs[k].t; }
    }
    FirstIndexAt(xs, k);
    NestedSpheresWalk(xs, k);
    NestedSpheresWalk(xs, k + 1);
  }

  // ---- a stack discipline that only pops the top does not give those values ----

  /** The rule "pop the shape if it is on top, push it otherwise". */
  function PopTopToggle(c: seq<ShapeId>, s: ShapeId): seq<ShapeId> {
    if c != [] && c[|c| - 1] == s then c[..|c| - 1] else c + [s]
  }

  function StackAfter(xs: seq<Intersection>, k: nat): seq<ShapeId>
    requires k <= |xs|
    decreases k
  {
    if k == 0 then [] else PopTopToggle(StackAfter(xs, k - 1), xs[k - 1].shape)
  }

  /** At t = 4.75 sphere 1 is exited while sphere 2 is innermost: the top-only rule pushes
      sphere 1 a second time and would enter index 2.0, where the fixture expects 2.5. */
  lemma PopTopRuleDiffers(xs: seq<Intersection>, arena: seq<Shape>)
    requires NestedOrder(xs) && |arena| == 3
    requires arena[1].material.refractiveIndex == 2.0
    requires arena[2].material.refractiveIndex == 2.5
    ensures StackAfter(xs, 4) == [0, 1, 2, 1]
    ensures IndexOf(StackAfter(xs, 4), arena) == 2.0
    ensures IndexOf(ContainersAfter(xs, 4), arena) == 2.5
  {
    assert StackAfter(xs, 1) == [0];
    assert StackAfter(xs, 2) == [0, 1];
    assert StackAfter(xs, 3) == [0, 1, 2];
    assert StackAfter(xs, 4) == [0, 1, 2, 1];
    NestedSpheresWalk(xs, 4);
  }
}
