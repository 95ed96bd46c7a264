/** Axis-aligned bounding boxes and their image under a transformation. */
module Bounds {
  import opened Tuples
  import opened Matrices

  /** A box given by its least and greatest corner. */
  datatype Box = Box(min: Tuple, max: Tuple)

  predicate Contains(b: Box, p: Tuple) {
    b.min.x <= p.x <= b.max.x && b.min.y <= p.y <= b.max.y && b.min.z <= p.z <= b.max.z
  }

  /** The eight corners of a box. */
  function Corners(b: Box): seq<Tuple> {
    var lo, hi := b.min, b.max;
    [Point(lo.x, lo.y, lo.z), Point(lo.x, lo.y, hi.z), Point(lo.x, hi.y, lo.z), Point(lo.x, hi.y, hi.z),
     Point(hi.x, lo.y, lo.z), Point(hi.x, lo.y, hi.z), Point(hi.x, hi.y, lo.z), Point(hi.x, hi.y, hi.z)]
  }

  function Min(a: real, b: real): real { if a <= b then a else b }
  function Max(a: real, b: real): real { if a <= b then b else a }

  /** Each face of the box touches one of the points: its least and greatest x, y and z are
      coordinates of points of the list. */
  predicate AttainsBounds(r: Box, ps: seq<Tuple>) {
    (exists i :: 0 <= i < |ps| && r.min.x == ps[i].x) &&
    (exists i :: 0 <= i < |ps| && r.min.y == ps[i].y) &&
    (exists i :: 0 <= i < |ps| && r.min.z == ps[i].z) &&
    (exists i :: 0 <= i < |ps| && r.max.x == ps[i].x) &&
    (exists i :: 0 <= i < |ps| && r.max.y == ps[i].y) &&
    (exists i :: 0 <= i < |ps| && r.max.z == ps[i].z)
  }

  /** The box `b` grown just enough to hold `p` as well. */
  function Grow(b: Box, p: Tuple): Box {
    Box(Point(Min(p.x, b.min.x), Min(p.y, b.min.y), Min(p.z, b.min.z)),
        Point(Max(p.x, b.max.x), Max(p.y, b.max.y), Max(p.z, b.max.z)))
  }

  /** The smallest box holding every point of a non-empty list: it contains them all, and
      each of its faces touches one of them, so no smaller box contains them. */
  function BoxAround(ps: seq<Tuple>): (r: Box)
    requires |ps| > 0
    ensures forall i :: 0 <= i < |ps| ==> Contains(r, ps[i])
    ensures AttainsBounds(r, ps)
    ensures r.min.w == 1.0 && r.max.w == 1.0
  {
    var p := ps[0];
    if |ps| == 1 then Box(Point(p.x, p.y, p.z), Point(p.x, p.y, p.z))
    else
      var b := BoxAround(ps[1..]);
      assert forall i :: 1 <= i < |ps| ==> ps[i] == ps[1..][i - 1];
      GrowAttains(ps, b);
      Grow(b, p)
  }

  /** Growing the box around all but the first point by the first point gives a box whose
      faces each touch one of the points. */
  lemma GrowAttains(ps: seq<Tuple>, b: Box)
    requires |ps| > 1 && AttainsBounds(b, ps[1..])
    ensures AttainsBounds(Grow(b, ps[0]), ps)
  {
    var p, r := ps[0], Grow(b, ps[0]);
    assert forall i :: 0 <= i < |ps| - 1 ==> ps[1..][i] == ps[i + 1];
    var a :| 0 <= a < |ps| - 1 && b.min.x == ps[1..][a].x;
    assert r.min.x == if p.x <= b.min.x then ps[0].x else ps[a + 1].x;
    a :| 0 <= a < |ps| - 1 && b.min.y == ps[1..][a].y;
    assert r.min.y == if p.y <= b.min.y then ps[0].y else ps[a + 1].y;
    a :| 0 <= a < |ps| - 1 && b.min.z == ps[1..][a].z;
    assert r.min.z == if p.z <= b.min.z then ps[0].z else ps[a + 1].z;
    a :| 0 <= a < |ps| - 1 && b.max.x == ps[1..][a].x;
    assert r.max.x == if p.x <= b.max.x then ps[a + 1].x else ps[0].x;
    a :| 0 <= a < |ps| - 1 && b.max.y == ps[1..][a].y;
    assert r.max.y == if p.y <= b.max.y then ps[a + 1].y else ps[0].y;
    a :| 0 <= a < |ps| - 1 && b.max.z == ps[1..][a].z;
    assert r.max.z == if p.z <= b.max.z then ps[a + 1].z else ps[0].z;
  }

  /** The images of the eight corners of `b` under `m`. */
  function CornerImages(b: Box, m: Matrix): (images: seq<Tuple>)
    ensures |images| == 8 && forall i :: 0 <= i < 8 ==> images[i] == Apply(m, Corners(b)[i])
  {
    var cs := Corners(b);
    [Apply(m, cs[0]), Apply(m, cs[1]), Apply(m, cs[2]), Apply(m, cs[3]),
     Apply(m, cs[4]), Apply(m, cs[5]), Apply(m, cs[6]), Apply(m, cs[7])]
  }

  /** The smallest box around the images of a box's corners under `m`. */
  function TransformBox(b: Box, m: Matrix): (r: Box)
    ensures forall i :: 0 <= i < 8 ==> Contains(r, Apply(m, Corners(b)[i]))
    ensures AttainsBounds(r, CornerImages(b, m))
  {
    BoxAround(CornerImages(b, m))
  }

  /** A box whose corners are ordered and whose corners are points. */
  predicate WellFormed(b: Box) {
    b.min.x <= b.max.x && b.min.y <= b.max.y && b.min.z <= b.max.z && b.min.w == 1.0 && b.max.w == 1.0
  }

  /** The identity transformation leaves a well-formed box as it is. */
  lemma TransformBoxIdentity(b: Box)
    requires WellFormed(b)
    ensures TransformBox(b, Identity) == b
  {
    var cs := Corners(b);
    forall i | 0 <= i < 8 ensures Apply(Identity, cs[i]) == cs[i] {
      ApplyIdentity(cs[i]);
    }
    var lo, hi := b.min, b.max;
    assert CornerImages(b, Identity) == cs;
    var top := Box(Point(hi.x, hi.y, lo.z), Point(hi.x, hi.y, hi.z));
    assert BoxAround(cs[6..]) == top by { assert cs[6..][1..] == cs[7..]; }
    var upper := Box(Point(hi.x, lo.y, lo.z), Point(hi.x, hi.y, hi.z));
    assert BoxAround(cs[5..]) == upper by { assert cs[5..][1..] == cs[6..]; }
    assert BoxAround(cs[4..]) == upper by { assert cs[4..][1..] == cs[5..]; }
    assert BoxAround(cs[3..]) == b by { assert cs[3..][1..] == cs[4..]; }
    assert BoxAround(cs[2..]) == b by { assert cs[2..][1..] == cs[3..]; }
    assert BoxAround(cs[1..]) == b by { assert cs[1..][1..] == cs[2..]; }
    assert BoxAround(cs) == b;
  }
}
