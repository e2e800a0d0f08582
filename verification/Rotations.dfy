/**
 What a node's local transform does to a point (qso_vr_visualization/scene_render_projector.py, `_trs`):
 the matrix scales it, turns it as the quaternion product does, and moves it.
 */
module Rotations {
  import opened Matrices

  /** The product of quaternions. */
  function Hamilton(a: Quaternion, b: Quaternion): Quaternion {
    Quaternion(
      a.w * b.x + a.x * b.w + a.y * b.z - a.z * b.y,
      a.w * b.y - a.x * b.z + a.y * b.w + a.z * b.x,
      a.w * b.z + a.x * b.y - a.y * b.x + a.z * b.w,
      a.w * b.w - a.x * b.x - a.y * b.y - a.z * b.z)
  }

  function Conjugate(q: Quaternion): Quaternion {
    Quaternion(-q.x, -q.y, -q.z, q.w)
  }

  predicate Unit(q: Quaternion) {
    q.x * q.x + q.y * q.y + q.z * q.z + q.w * q.w == 1.0
  }

  function Pure(p: Point): Quaternion {
    Quaternion(p.x, p.y, p.z, 0.0)
  }

  /** The point turned by a quaternion: q p q* */
  function Turned(q: Quaternion, p: Point): Quaternion {
    Hamilton(Hamilton(q, Pure(p)), Conjugate(q))
  }

  function Scaled(scl: Point, p: Point): Point {
    Point(scl.x * p.x, scl.y * p.y, scl.z * p.z)
  }

  lemma TurnedSums(a: real, b: real, c: real, w: real, p: real, q: real, r: real)
    requires a * a + b * b + c * c + w * w == 1.0
    ensures (a * p + b * q + c * r) * a + (w * p + b * r - c * q) * w
          - (w * q + c * p - a * r) * c + (w * r + a * q - b * p) * b
          == (1.0 - 2.0 * (b * b + c * c)) * p + 2.0 * (a * b - w * c) * q + 2.0 * (a * c + w * b) * r
  {
  }

  /** One coordinate of a turned point, in plain numbers: its own axis a, and the next two b and c. */
  function Axis(a: real, b: real, c: real, w: real, p: real, q: real, r: real): real {
    (1.0 - 2.0 * (b * b + c * c)) * p + 2.0 * (a * b - w * c) * q + 2.0 * (a * c + w * b) * r
  }

  lemma TurnedAxis(a: real, b: real, c: real, w: real, p: real, q: real, r: real,
                   tw: real, ta: real, tb: real, tc: real)
    requires a * a + b * b + c * c + w * w == 1.0
    requires tw == -(a * p + b * q + c * r) && ta == w * p + b * r - c * q
    requires tb == w * q + c * p - a * r && tc == w * r + a * q - b * p
    ensures ta * w + tc * b - tw * a - tb * c == Axis(a, b, c, w, p, q, r)
  {
    TurnedSums(a, b, c, w, p, q, r);
    assert tw * a == -((a * p + b * q + c * r) * a);
  }

  ghost predicate LeftOf(q: Quaternion, p: Point, t: Quaternion) {
    && t.w == -(q.x * p.x + q.y * p.y + q.z * p.z)
    && t.x == q.w * p.x + q.y * p.z - q.z * p.y
    && t.y == q.w * p.y + q.z * p.x - q.x * p.z
    && t.z == q.w * p.z + q.x * p.y - q.y * p.x
  }

  /** The product on the left. */
  lemma LeftProduct(q: Quaternion, p: Point, t: Quaternion)
    requires t == Hamilton(q, Pure(p))
    ensures LeftOf(q, p, t)
  {
  }

  /** The product on the right. */
  lemma RightProduct(t: Quaternion, q: Quaternion, turned: Quaternion)
    requires turned == Hamilton(t, Conjugate(q))
    ensures turned.x == t.x * q.w + t.z * q.y - t.w * q.x - t.y * q.z
    ensures turned.y == t.y * q.w + t.x * q.z - t.w * q.y - t.z * q.x
    ensures turned.z == t.z * q.w + t.y * q.x - t.w * q.z - t.x * q.y
  {
  }

  lemma XFromLeft(q: Quaternion, p: Point, t: Quaternion)
    requires Unit(q) && LeftOf(q, p, t)
    ensures t.x * q.w + t.z * q.y - t.w * q.x - t.y * q.z == Axis(q.x, q.y, q.z, q.w, p.x, p.y, p.z)
  {
    TurnedAxis(q.x, q.y, q.z, q.w, p.x, p.y, p.z, t.w, t.x, t.y, t.z);
  }

  lemma YFromLeft(q: Quaternion, p: Point, t: Quaternion)
    requires Unit(q) && LeftOf(q, p, t)
    ensures t.y * q.w + t.x * q.z - t.w * q.y - t.z * q.x == Axis(q.y, q.z, q.x, q.w, p.y, p.z, p.x)
  {
    TurnedAxis(q.y, q.z, q.x, q.w, p.y, p.z, p.x, t.w, t.y, t.z, t.x);
  }

  lemma ZFromLeft(q: Quaternion, p: Point, t: Quaternion)
    requires Unit(q) && LeftOf(q, p, t)
    ensures t.z * q.w + t.y * q.x - t.w * q.z - t.x * q.y == Axis(q.z, q.x, q.y, q.w, p.z, p.x, p.y)
  {
    TurnedAxis(q.z, q.x, q.y, q.w, p.z, p.x, p.y, t.w, t.z, t.x, t.y);
  }

  lemma TurnedX(q: Quaternion, p: Point)
    requires Unit(q)
    ensures Turned(q, p).x == Axis(q.x, q.y, q.z, q.w, p.x, p.y, p.z)
  {
    var t := Hamilton(q, Pure(p));
    LeftProduct(q, p, t);
    XFromLeft(q, p, t);
    RightProduct(t, q, Turned(q, p));
  }

  lemma TurnedY(q: Quaternion, p: Point)
    requires Unit(q)
    ensures Turned(q, p).y == Axis(q.y, q.z, q.x, q.w, p.y, p.z, p.x)
  {
    var t := Hamilton(q, Pure(p));
    LeftProduct(q, p, t);
    YFromLeft(q, p, t);
    RightProduct(t, q, Turned(q, p));
  }

  lemma TurnedZ(q: Quaternion, p: Point)
    requires Unit(q)
    ensures Turned(q, p).z == Axis(q.z, q.x, q.y, q.w, p.z, p.x, p.y)
  {
    var t := Hamilton(q, Pure(p));
    LeftProduct(q, p, t);
    ZFromLeft(q, p, t);
    RightProduct(t, q, Turned(q, p));
  }

  lemma RowOfTrs(m: Matrix, r0: nat, c0: real, c1: real, c2: real, t: real, scl: Point,
      p: Point, q: Point)
    requires r0 <= 12 && m[r0] == c0 * scl.x && m[r0 + 1] == c1 * scl.y && m[r0 + 2] == c2 * scl.z && m[r0 + 3] == t
    requires q == Scaled(scl, p)
    ensures Row(m, r0, p) == c0 * q.x + c1 * q.y + c2 * q.z + t
  {
    Regroup(c0, scl.x, p.x);
    Regroup(c1, scl.y, p.y);
    Regroup(c2, scl.z, p.z);
  }

  lemma RowXOfTrs(pos: Point, rot: Quaternion, scl: Point, p: Point, q: Point)
    requires q == Scaled(scl, p)
    ensures Row(Trs(pos, rot, scl), 0, p)
      == Axis(rot.x, rot.y, rot.z, rot.w, q.x, q.y, q.z) + pos.x
  {
    var x, y, z, w := rot.x, rot.y, rot.z, rot.w;
    RowOfTrs(Trs(pos, rot, scl), 0, 1.0 - 2.0 * (y * y + z * z), 2.0 * (x * y - w * z), 2.0 * (x * z + w * y),
      pos.x, scl, p, q);
  }

  lemma RowYOfTrs(pos: Point, rot: Quaternion, scl: Point, p: Point, q: Point)
    requires q == Scaled(scl, p)
    ensures Row(Trs(pos, rot, scl), 4, p)
      == Axis(rot.y, rot.z, rot.x, rot.w, q.y, q.z, q.x) + pos.y
  {
    var x, y, z, w := rot.x, rot.y, rot.z, rot.w;
    RowOfTrs(Trs(pos, rot, scl), 4, 2.0 * (x * y + w * z), 1.0 - 2.0 * (x * x + z * z), 2.0 * (y * z - w * x),
      pos.y, scl, p, q);
  }

  lemma RowZOfTrs(pos: Point, rot: Quaternion, scl: Point, p: Point, q: Point)
    requires q == Scaled(scl, p)
    ensures Row(Trs(pos, rot, scl), 8, p)
      == Axis(rot.z, rot.x, rot.y, rot.w, q.z, q.x, q.y) + pos.z
  {
    var x, y, z, w := rot.x, rot.y, rot.z, rot.w;
    RowOfTrs(Trs(pos, rot, scl), 8, 2.0 * (x * z - w * y), 2.0 * (y * z + w * x), 1.0 - 2.0 * (x * x + y * y),
      pos.z, scl, p, q);
  }

  lemma TrsPlacesAt(pos: Point, rot: Quaternion, scl: Point, p: Point, q: Point, turned: Quaternion)
    requires q == Scaled(scl, p)
    requires turned.x == Axis(rot.x, rot.y, rot.z, rot.w, q.x, q.y, q.z)
    requires turned.y == Axis(rot.y, rot.z, rot.x, rot.w, q.y, q.z, q.x)
    requires turned.z == Axis(rot.z, rot.x, rot.y, rot.w, q.z, q.x, q.y)
    ensures Transform(Trs(pos, rot, scl), p) == Point(turned.x + pos.x, turned.y + pos.y, turned.z + pos.z)
  {
    RowXOfTrs(pos, rot, scl, p, q);
    RowYOfTrs(pos, rot, scl, p, q);
    RowZOfTrs(pos, rot, scl, p, q);
  }

  /** A local transform scales a point, turns it by the unit quaternion, and moves it, in this order. */
  lemma TrsPlaces(pos: Point, rot: Quaternion, scl: Point, p: Point)
    requires Unit(rot)
    ensures var turned := Turned(rot, Scaled(scl, p));
      Transform(Trs(pos, rot, scl), p) == Point(turned.x + pos.x, turned.y + pos.y, turned.z + pos.z)
  {
    var q := Scaled(scl, p);
    TurnedX(rot, q);
    TurnedY(rot, q);
    TurnedZ(rot, q);
    TrsPlacesAt(pos, rot, scl, p, q, Turned(rot, q));
  }
}
