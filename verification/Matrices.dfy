/**
 The row-major 4x4 matrices of qso_vr_visualization/scene_render_projector.py, over the
 reals: `_mul4`, `_transform_point` and `_trs`. The products of reals are kept in small
 lemmas of their own.
 */
module Matrices {
  type Matrix = m: seq<real> | |m| == 16 witness seq(16, i => 0.0)
  datatype Point = Point(x: real, y: real, z: real)
  datatype Quaternion = Quaternion(x: real, y: real, z: real, w: real)

  const IDENTITY: Matrix := [1.0, 0.0, 0.0, 0.0, 0.0, 1.0, 0.0, 0.0, 0.0, 0.0, 1.0, 0.0, 0.0, 0.0, 0.0, 1.0]

  /** The row of a that starts at r0, times column c of b. */
  function Dot(a: Matrix, b: Matrix, r0: nat, c: nat): real
    requires r0 <= 12 && c < 4
  {
    a[r0] * b[c] + a[r0 + 1] * b[c + 4] + a[r0 + 2] * b[c + 8] + a[r0 + 3] * b[c + 12]
  }

  function Product(a: Matrix, b: Matrix): Matrix {
    [Dot(a, b, 0, 0), Dot(a, b, 0, 1), Dot(a, b, 0, 2), Dot(a, b, 0, 3),
     Dot(a, b, 4, 0), Dot(a, b, 4, 1), Dot(a, b, 4, 2), Dot(a, b, 4, 3),
     Dot(a, b, 8, 0), Dot(a, b, 8, 1), Dot(a, b, 8, 2), Dot(a, b, 8, 3),
     Dot(a, b, 12, 0), Dot(a, b, 12, 1), Dot(a, b, 12, 2), Dot(a, b, 12, 3)]
  }

  method Mul4(a: Matrix, b: Matrix) returns (out: Matrix)
    ensures out == Product(a, b)
  {
    out := seq(16, i => 0.0);
    for r := 0 to 4
      invariant forall i :: 0 <= i < 4 * r ==> out[i] == Product(a, b)[i]
    {
      var r0 := 4 * r;
      for c := 0 to 4
        invariant forall i :: 0 <= i < r0 + c ==> out[i] == Product(a, b)[i]
      {
        out := out[r0 + c := a[r0] * b[c] + a[r0 + 1] * b[c + 4] + a[r0 + 2] * b[c + 8] + a[r0 + 3] * b[c + 12]];
        assert out[r0 + c] == Dot(a, b, r0, c);
      }
    }
  }

  /** The row of m that starts at r0, applied to p. */
  function Row(m: Matrix, r0: nat, p: Point): real
    requires r0 <= 12
  {
    m[r0] * p.x + m[r0 + 1] * p.y + m[r0 + 2] * p.z + m[r0 + 3]
  }

  function Transform(m: Matrix, p: Point): Point {
    Point(Row(m, 0, p), Row(m, 4, p), Row(m, 8, p))
  }

  /** The last row is (0, 0, 0, 1). */
  predicate Affine(m: Matrix) {
    m[12] == 0.0 && m[13] == 0.0 && m[14] == 0.0 && m[15] == 1.0
  }

  function Trs(pos: Point, rot: Quaternion, scl: Point): (m: Matrix)
    ensures Affine(m)
    ensures Transform(m, Point(0.0, 0.0, 0.0)) == pos
  {
    var xx, yy, zz := rot.x * rot.x, rot.y * rot.y, rot.z * rot.z;
    var xy, xz, yz := rot.x * rot.y, rot.x * rot.z, rot.y * rot.z;
    var wx, wy, wz := rot.w * rot.x, rot.w * rot.y, rot.w * rot.z;
    [(1.0 - 2.0 * (yy + zz)) * scl.x, 2.0 * (xy - wz) * scl.y, 2.0 * (xz + wy) * scl.z, pos.x,
     2.0 * (xy + wz) * scl.x, (1.0 - 2.0 * (xx + zz)) * scl.y, 2.0 * (yz - wx) * scl.z, pos.y,
     2.0 * (xz - wy) * scl.x, 2.0 * (yz + wx) * scl.y, (1.0 - 2.0 * (xx + yy)) * scl.z, pos.z,
     0.0, 0.0, 0.0, 1.0]
  }

  /** A point with a fourth coordinate. */
  datatype Vector = Vector(x: real, y: real, z: real, w: real)

  /** The row of m that starts at r0, applied to v. */
  function VectorRow(m: Matrix, r0: nat, v: Vector): real
    requires r0 <= 12
  {
    m[r0] * v.x + m[r0 + 1] * v.y + m[r0 + 2] * v.z + m[r0 + 3] * v.w
  }

  function Act(m: Matrix, v: Vector): Vector {
    Vector(VectorRow(m, 0, v), VectorRow(m, 4, v), VectorRow(m, 8, v), VectorRow(m, 12, v))
  }

  lemma Spread(p: real, q: real, r: real, s: real, t: real)
    ensures (p + q + r + s) * t == p * t + q * t + r * t + s * t
  {
  }

  lemma Collect(a: real, p: real, q: real, r: real, s: real)
    ensures a * (p + q + r + s) == a * p + a * q + a * r + a * s
  {
  }

  lemma Regroup(a: real, b: real, t: real)
    ensures (a * b) * t == a * (b * t)
  {
  }

  /** One column of the product, scaled by t. */
  lemma ColumnScaled(a0: real, a1: real, a2: real, a3: real, b0: real, b1: real, b2: real, b3: real, t: real)
    ensures (a0 * b0 + a1 * b1 + a2 * b2 + a3 * b3) * t ==
      a0 * (b0 * t) + a1 * (b1 * t) + a2 * (b2 * t) + a3 * (b3 * t)
  {
    Spread(a0 * b0, a1 * b1, a2 * b2, a3 * b3, t);
    Regroup(a0, b0, t);
    Regroup(a1, b1, t);
    Regroup(a2, b2, t);
    Regroup(a3, b3, t);
  }

  /** The identity behind one row, in plain numbers: a row times the columns of b, and the rows of b times a vector. */
  lemma RowIdentity(a0: real, a1: real, a2: real, a3: real,
                    b0: real, b1: real, b2: real, b3: real, b4: real, b5: real, b6: real, b7: real,
                    b8: real, b9: real, b10: real, b11: real, b12: real, b13: real, b14: real, b15: real,
                    x: real, y: real, z: real, w: real)
    ensures
      (a0 * b0 + a1 * b4 + a2 * b8 + a3 * b12) * x + (a0 * b1 + a1 * b5 + a2 * b9 + a3 * b13) * y
      + (a0 * b2 + a1 * b6 + a2 * b10 + a3 * b14) * z + (a0 * b3 + a1 * b7 + a2 * b11 + a3 * b15) * w
      == a0 * (b0 * x + b1 * y + b2 * z + b3 * w) + a1 * (b4 * x + b5 * y + b6 * z + b7 * w)
         + a2 * (b8 * x + b9 * y + b10 * z + b11 * w) + a3 * (b12 * x + b13 * y + b14 * z + b15 * w)
  {
    ColumnScaled(a0, a1, a2, a3, b0, b4, b8, b12, x);
    ColumnScaled(a0, a1, a2, a3, b1, b5, b9, b13, y);
    ColumnScaled(a0, a1, a2, a3, b2, b6, b10, b14, z);
    ColumnScaled(a0, a1, a2, a3, b3, b7, b11, b15, w);
    Collect(a0, b0 * x, b1 * y, b2 * z, b3 * w);
    Collect(a1, b4 * x, b5 * y, b6 * z, b7 * w);
    Collect(a2, b8 * x, b9 * y, b10 * z, b11 * w);
    Collect(a3, b12 * x, b13 * y, b14 * z, b15 * w);
  }

  /** The row of m that starts at r0 is the row of a times the columns of b. */
  ghost predicate RowOfProduct(m: Matrix, a: Matrix, b: Matrix, r0: nat)
    requires r0 <= 12
  {
    && m[r0] == a[r0] * b[0] + a[r0 + 1] * b[4] + a[r0 + 2] * b[8] + a[r0 + 3] * b[12]
    && m[r0 + 1] == a[r0] * b[1] + a[r0 + 1] * b[5] + a[r0 + 2] * b[9] + a[r0 + 3] * b[13]
    && m[r0 + 2] == a[r0] * b[2] + a[r0 + 1] * b[6] + a[r0 + 2] * b[10] + a[r0 + 3] * b[14]
    && m[r0 + 3] == a[r0] * b[3] + a[r0 + 1] * b[7] + a[r0 + 2] * b[11] + a[r0 + 3] * b[15]
  }

  lemma ProductRow(a: Matrix, b: Matrix, r0: nat)
    requires r0 == 0 || r0 == 4 || r0 == 8 || r0 == 12
    ensures RowOfProduct(Product(a, b), a, b, r0)
  {
    var m := Product(a, b);
    assert m[r0] == Dot(a, b, r0, 0) && m[r0 + 1] == Dot(a, b, r0, 1);
    assert m[r0 + 2] == Dot(a, b, r0, 2) && m[r0 + 3] == Dot(a, b, r0, 3);
  }

  lemma RowActs(m: Matrix, a: Matrix, b: Matrix, v: Vector, r0: nat)
    requires r0 <= 12 && RowOfProduct(m, a, b, r0)
    ensures VectorRow(m, r0, v) == VectorRow(a, r0, Act(b, v))
  {
    RowIdentity(a[r0], a[r0 + 1], a[r0 + 2], a[r0 + 3],
                b[0], b[1], b[2], b[3], b[4], b[5], b[6], b[7], b[8], b[9], b[10], b[11], b[12], b[13], b[14], b[15],
                v.x, v.y, v.z, v.w);
  }

  lemma ProductRowActs(a: Matrix, b: Matrix, v: Vector, r0: nat)
    requires r0 == 0 || r0 == 4 || r0 == 8 || r0 == 12
    ensures VectorRow(Product(a, b), r0, v) == VectorRow(a, r0, Act(b, v))
  {
    ProductRow(a, b, r0);
    RowActs(Product(a, b), a, b, v, r0);
  }

  /** The product acts as its factors do one after the other, for any two matrices. */
  lemma ProductActs(a: Matrix, b: Matrix, v: Vector)
    ensures Act(Product(a, b), v) == Act(a, Act(b, v))
  {
    ProductRowActs(a, b, v, 0);
    ProductRowActs(a, b, v, 4);
    ProductRowActs(a, b, v, 8);
    ProductRowActs(a, b, v, 12);
  }

  /** A point goes where the vector with a last coordinate of one goes, and an affine matrix keeps that coordinate. */
  lemma TransformActs(m: Matrix, p: Point)
    ensures var v := Act(m, Vector(p.x, p.y, p.z, 1.0));
      Transform(m, p) == Point(v.x, v.y, v.z) && (Affine(m) ==> v.w == 1.0)
  {
  }

  /** Multiplying matrices composes the maps they stand for. */
  lemma ProductComposes(a: Matrix, b: Matrix, p: Point)
    requires Affine(b)
    ensures Transform(Product(a, b), p) == Transform(a, Transform(b, p))
  {
    var v := Vector(p.x, p.y, p.z, 1.0);
    var q := Transform(b, p);
    TransformActs(b, p);
    TransformActs(Product(a, b), p);
    ProductActs(a, b, v);
    TransformActs(a, q);
  }
}
