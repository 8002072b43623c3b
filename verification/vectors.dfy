/** Three-component vectors over reals and the face-normal computation of addOffFace. */
module Vectors {

  datatype Vec3 = Vec3(x: real, y: real, z: real)

  const Zero := Vec3(0.0, 0.0, 0.0)

  function Add(a: Vec3, b: Vec3): Vec3
  {
    Vec3(a.x + b.x, a.y + b.y, a.z + b.z)
  }

  function Sub(a: Vec3, b: Vec3): Vec3
  {
    Vec3(a.x - b.x, a.y - b.y, a.z - b.z)
  }

  function Scale(k: real, a: Vec3): Vec3
  {
    Vec3(k * a.x, k * a.y, k * a.z)
  }

  function Dot(a: Vec3, b: Vec3): real
  {
    a.x * b.x + a.y * b.y + a.z * b.z
  }

  /** The three numbers of a vector, as they are appended to the output arrays. */
  function ToTuple(v: Vec3): (t: seq<real>)
    ensures |t| == 3
  {
    [v.x, v.y, v.z]
  }

  /** The cross product. */
  function Cross(a: Vec3, b: Vec3): Vec3
  {
    Vec3(a.y * b.z - a.z * b.y, a.z * b.x - a.x * b.z, a.x * b.y - a.y * b.x)
  }

  /** The cross product is orthogonal to both of its arguments. */
  lemma CrossOrthogonal(a: Vec3, b: Vec3)
    ensures Dot(Cross(a, b), a) == 0.0
    ensures Dot(Cross(a, b), b) == 0.0
  {
    var n := Cross(a, b);
    assert Dot(n, a) == a.x * (a.y * b.z - a.z * b.y) + a.y * (a.z * b.x - a.x * b.z) + a.z * (a.x * b.y - a.y * b.x);
    assert Dot(n, b) == b.x * (a.y * b.z - a.z * b.y) + b.y * (a.z * b.x - a.x * b.z) + b.z * (a.x * b.y - a.y * b.x);
  }

  /** Divides by the length when the length is positive; otherwise the vector is
      returned unchanged, so the zero vector stays zero whatever `sqrt` returns. */
  function Normalize(v: Vec3, sqrt: real -> real): (r: Vec3)
    ensures v == Zero ==> r == Zero
  {
    var length := sqrt(Dot(v, v));
    if length > 0.0 then Vec3(v.x / length, v.y / length, v.z / length) else v
  }

  /** When `sqrt` returns a positive square root of the squared length, the
      result is the unit vector pointing the same way. */
  lemma NormalizeIsUnit(v: Vec3, sqrt: real -> real)
    requires sqrt(Dot(v, v)) > 0.0
    requires sqrt(Dot(v, v)) * sqrt(Dot(v, v)) == Dot(v, v)
    ensures Dot(Normalize(v, sqrt), Normalize(v, sqrt)) == 1.0
    ensures Normalize(v, sqrt) == Scale(1.0 / sqrt(Dot(v, v)), v)
  {
    var d := Dot(v, v);
    var len := sqrt(d);
    assert len > 0.0;
    var k := 1.0 / len;
    assert len * k == 1.0;
    assert v.x / len == k * v.x && v.y / len == k * v.y && v.z / len == k * v.z;
    var r := Scale(k, v);
    assert Normalize(v, sqrt) == r;
    assert Dot(r, r) == (k * k) * d;
    assert (k * k) * (len * len) == (k * len) * (k * len);
  }

  /** `sqrt` is exact wherever it is positive, and the square root of 1 is 1. */
  ghost predicate SqrtExact(sqrt: real -> real)
  {
    && sqrt(1.0) == 1.0
    && forall x :: sqrt(x) > 0.0 ==> sqrt(x) * sqrt(x) == x
  }

  /** Normalising twice is normalising once: a unit vector has length 1, and a
      vector left unchanged is left unchanged again. */
  lemma NormalizeIdempotent(v: Vec3, sqrt: real -> real)
    requires SqrtExact(sqrt)
    ensures Normalize(Normalize(v, sqrt), sqrt) == Normalize(v, sqrt)
  {
    if sqrt(Dot(v, v)) > 0.0 {
      NormalizeIsUnit(v, sqrt);
      var n := Normalize(v, sqrt);
      assert sqrt(Dot(n, n)) == 1.0;
      assert n.x / 1.0 == n.x && n.y / 1.0 == n.y && n.z / 1.0 == n.z;
    }
  }

  /** The normal of triangle (v0, v1, v2): the cross product of the edges
      v1 - v0 and v2 - v0, normalised. */
  function FaceNormal(v0: Vec3, v1: Vec3, v2: Vec3, sqrt: real -> real): Vec3
  {
    Normalize(Cross(Sub(v1, v0), Sub(v2, v0)), sqrt)
  }

  /** A triangle whose three corners coincide gets the zero normal. */
  lemma DegenerateFaceNormal(v: Vec3, sqrt: real -> real)
    ensures FaceNormal(v, v, v, sqrt) == Zero
  {
  }

  /** The unnormalised face normal is orthogonal to both edges of the triangle. */
  lemma FaceNormalOrthogonal(v0: Vec3, v1: Vec3, v2: Vec3)
    ensures Dot(Cross(Sub(v1, v0), Sub(v2, v0)), Sub(v1, v0)) == 0.0
    ensures Dot(Cross(Sub(v1, v0), Sub(v2, v0)), Sub(v2, v0)) == 0.0
  {
    CrossOrthogonal(Sub(v1, v0), Sub(v2, v0));
  }
}
