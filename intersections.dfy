/** Intersection records and the choice of the visible hit among them. */
module Intersections {
  import opened Options

  /** A shape handle: the index of the shape in the scene's arena of shapes. */
  type ShapeId = nat

  /** A ray parameter at which the ray meets the shape with handle `shape`. */
  datatype Intersection = Intersection(t: real, shape: ShapeId)

  /** `h` is an entry of `xs` whose `t` is the least among the non-negative ones. */
  ghost predicate IsHit(xs: seq<Intersection>, h: Intersection) {
    h in xs && h.t >= 0.0 && forall e :: e in xs && e.t >= 0.0 ==> h.t <= e.t
  }

  /** The visible hit: the entry with the smallest non-negative `t`, in a list that need not be
      sorted; none when every `t` is negative. Of entries with equal `t` the earliest is taken. */
  function Hit(xs: seq<Intersection>): (r: Option<Intersection>)
    ensures r.None? <==> forall i :: 0 <= i < |xs| ==> xs[i].t < 0.0
    ensures r.Some? ==> IsHit(xs, r.value)
  {
    if xs == [] then None
    else
      var rest := Hit(xs[1..]);
      assert forall i :: 1 <= i < |xs| ==> xs[i] == xs[1..][i - 1];
      if xs[0].t < 0.0 then rest
      else if rest.Some? && rest.value.t < xs[0].t then rest
      else Some(xs[0])
  }

  /** Of entries with equal `t` the hit is the earliest: it occurs at a position before which
      no entry has its `t`. */
  lemma {:induction false} HitIsEarliest(xs: seq<Intersection>)
    ensures Hit(xs).Some? ==>
      exists k :: 0 <= k < |xs| && xs[k] == Hit(xs).value &&
        forall j :: 0 <= j < k ==> xs[j].t != Hit(xs).value.t
  {
    if xs != [] {
      var rest := Hit(xs[1..]);
      HitIsEarliest(xs[1..]);
      if xs[0].t >= 0.0 && !(rest.Some? && rest.value.t < xs[0].t) {
        assert xs[0] == Hit(xs).value;
      } else if rest.Some? {
        var h := rest.value;
        assert IsHit(xs[1..], h);
        var k :| 0 <= k < |xs[1..]| && xs[1..][k] == h &&
          forall j :: 0 <= j < k ==> xs[1..][j].t != h.t;
        assert xs[0].t != h.t;
        assert forall j :: 1 <= j < k + 1 ==> xs[j] == xs[1..][j - 1];
        assert xs[k + 1] == h;
      }
    }
  }

  /** All valid hits of a list agree on `t`. */
  lemma HitTimeUnique(xs: seq<Intersection>, a: Intersection, b: Intersection)
    requires IsHit(xs, a) && IsHit(xs, b)
    ensures a.t == b.t
  {
    var i :| 0 <= i < |xs| && xs[i] == a;
    var j :| 0 <= j < |xs| && xs[j] == b;
  }

  /** Reordering the list does not change whether there is a hit, nor the hit's `t`. */
  lemma HitIgnoresOrder(xs: seq<Intersection>, ys: seq<Intersection>)
    requires multiset(xs) == multiset(ys)
    ensures Hit(xs).None? <==> Hit(ys).None?
    ensures Hit(xs).Some? ==> Hit(ys).Some? && Hit(xs).value.t == Hit(ys).value.t
  {
    assert forall e :: e in xs <==> e in ys by {
      forall e ensures e in xs <==> e in ys {
        assert e in xs <==> e in multiset(xs);
        assert e in ys <==> e in multiset(ys);
      }
    }
    if Hit(xs).Some? {
      assert exists i :: 0 <= i < |ys| && ys[i].t >= 0.0 by {
        var h := Hit(xs).value;
        assert h in ys;
      }
      HitTimeUnique(xs, Hit(xs).value, Hit(ys).value);
    }
  }

  /** The fixtures of TestIntersection.cpp, with shape handles 0, 1, 2, ... for the fresh spheres. */
  lemma HitFixtures()
    ensures Hit([Intersection(1.0, 0), Intersection(2.0, 1)]) == Some(Intersection(1.0, 0))
    ensures Hit([Intersection(-1.0, 0), Intersection(1.0, 1)]) == Some(Intersection(1.0, 1))
    ensures Hit([Intersection(-1.0, 0), Intersection(-2.0, 1)]) == None
    ensures Hit([Intersection(5.0, 0), Intersection(7.0, 1), Intersection(-3.0, 2), Intersection(2.0, 3)])
            == Some(Intersection(2.0, 3))
  {
    var xs := [Intersection(5.0, 0), Intersection(7.0, 1), Intersection(-3.0, 2), Intersection(2.0, 3)];
    assert xs[1..][1..][1..] == [Intersection(2.0, 3)];
  }
}
