/** calculateOffNormals: the per-vertex-instance normals of an OFF mesh, either the
    face normal repeated on each corner (flat) or, for each corner, the normalised
    sum of the normals of every face that uses its vertex (smooth). */
module Normals {
  import opened Results
  import opened Vectors
  import opened MeshState

  /** Every element three times in a row: the per-instance view of per-face data. */
  function Triplicate<T>(xs: seq<T>): (r: seq<T>)
    ensures |r| == 3 * |xs|
    ensures forall i :: 0 <= i < |r| ==> r[i] == xs[i / 3]
  {
    if |xs| == 0 then []
    else
      var n := |xs| - 1;
      var r := Triplicate(xs[..n]) + [xs[n], xs[n], xs[n]];
      assert forall i :: 0 <= i < 3 * n ==> i / 3 < n && r[i] == xs[..n][i / 3];
      assert forall i :: 3 * n <= i < 3 * n + 3 ==> i / 3 == n;
      r
  }

  lemma TriplicateAppend<T>(xs: seq<T>, x: T)
    ensures Triplicate(xs + [x]) == Triplicate(xs) + [x, x, x]
  {
    assert (xs + [x])[..|xs|] == xs;
  }

  /** Flat normals: each recorded face normal once for each of the face's three
      vertex instances. */
  function FlatNormals(normals: seq<Tuple>): seq<real>
  {
    Flatten(Triplicate(normals))
  }

  /** With three numbers per normal, vertex instance v's normal occupies the
      three numbers from 3v, and is the normal of face v / 3. */
  lemma FlatNormalsLayout(normals: seq<Tuple>)
    requires Triples(normals)
    ensures |FlatNormals(normals)| == 9 * |normals|
    ensures forall v, c :: 0 <= v < 3 * |normals| && 0 <= c < 3 ==>
      FlatNormals(normals)[3 * v + c] == Triplicate(normals)[v][c] == normals[v / 3][c]
  {
    var t := Triplicate(normals);
    forall i | 0 <= i < |t|
      ensures |t[i]| == 3
    {
      assert t[i] == normals[i / 3];
    }
    FlattenTriples(t);
  }

  /** The recorded normal of every face exists and has three numbers; otherwise
      the smooth pass indexes out of range. */
  predicate NormalsCover(faces: seq<Face>, normals: seq<Tuple>)
  {
    |normals| >= |faces| && forall f :: 0 <= f < |faces| ==> |normals[f]| >= 3
  }

  /** The recorded normals of the faces, as vectors. */
  function FaceNormals(faces: seq<Face>, normals: seq<Tuple>): (r: seq<Vec3>)
    requires NormalsCover(faces, normals)
    ensures |r| == |faces|
    ensures forall f :: 0 <= f < |faces| ==> r[f] == Vec3(normals[f][0], normals[f][1], normals[f][2])
  {
    seq(|faces|, f requires 0 <= f < |faces| => Vec3(normals[f][0], normals[f][1], normals[f][2]))
  }

  /** The sum of the normals of the vertex instances that name vertex k: the
      reference definition of a smooth vertex normal before normalisation. */
  function IncidentSum(ks: seq<int>, vs: seq<Vec3>, k: int): Vec3
    requires |ks| == |vs|
  {
    if |ks| == 0 then Zero
    else
      var n := |ks| - 1;
      var prev := IncidentSum(ks[..n], vs[..n], k);
      if ks[n] == k then Add(prev, vs[n]) else prev
  }

  /** A vertex no instance names has no incident normal. */
  lemma {:induction false} IncidentSumAbsent(ks: seq<int>, vs: seq<Vec3>, k: int)
    requires |ks| == |vs|
    requires k !in ks
    ensures IncidentSum(ks, vs, k) == Zero
    decreases |ks|
  {
    if |ks| > 0 {
      var n := |ks| - 1;
      assert ks == ks[..n] + [ks[n]];
      IncidentSumAbsent(ks[..n], vs[..n], k);
    }
  }

  /** The map's entry for k, or the zero vector the program starts a missing
      entry from. */
  function Get(m: map<int, Vec3>, k: int): Vec3
  {
    if k in m then m[k] else Zero
  }

  /** Adds v to the entry for k. */
  function Bump(m: map<int, Vec3>, k: int, v: Vec3): map<int, Vec3>
  {
    m[k := Add(Get(m, k), v)]
  }

  /** The first loop of the smooth pass: for every face, in order, its normal is
      added to the entry of each of its three corners. */
  function Accumulate(faces: seq<Face>, normals: seq<Vec3>): (r: map<int, Vec3>)
    requires |normals| == |faces|
    ensures forall k :: k in r <==> exists i :: 0 <= i < |faces| && Touches(faces[i], k)
  {
    if |faces| == 0 then map[]
    else
      var n := |faces| - 1;
      var f, v := faces[n], normals[n];
      assert forall i :: 0 <= i < n ==> faces[..n][i] == faces[i];
      Bump(Bump(Bump(Accumulate(faces[..n], normals[..n]), f.a, v), f.b, v), f.c, v)
  }

  /** Vertex k is one of the face's three corners. */
  predicate Touches(f: Face, k: int)
  {
    k == f.a || k == f.b || k == f.c
  }

  /** Three more instances added to the sum, one at a time. */
  lemma IncidentSumAppend3(ks: seq<int>, vs: seq<Vec3>, a: int, b: int, c: int, v: Vec3, k: int)
    requires |ks| == |vs|
    ensures
      var s0 := IncidentSum(ks, vs, k);
      var s1 := if a == k then Add(s0, v) else s0;
      var s2 := if b == k then Add(s1, v) else s1;
      var s3 := if c == k then Add(s2, v) else s2;
      IncidentSum(ks + [a, b, c], vs + [v, v, v], k) == s3
  {
    var n := |ks|;
    assert (ks + [a, b, c])[..n + 2] == ks + [a, b];
    assert (vs + [v, v, v])[..n + 2] == vs + [v, v];
    assert (ks + [a, b])[..n + 1] == ks + [a];
    assert (vs + [v, v])[..n + 1] == vs + [v];
    assert (ks + [a])[..n] == ks;
    assert (vs + [v])[..n] == vs;
    var s0 := IncidentSum(ks, vs, k);
    var s1 := if a == k then Add(s0, v) else s0;
    var s2 := if b == k then Add(s1, v) else s1;
    assert IncidentSum(ks + [a], vs + [v], k) == s1;
    assert IncidentSum(ks + [a, b], vs + [v, v], k) == s2;
  }

  /** The accumulated map has an entry exactly for the vertices some face uses,
      and that entry is the sum of the normals of the faces around the vertex,
      one term per corner that names it. */
  lemma {:induction false} AccumulateIsIncidentSum(faces: seq<Face>, normals: seq<Vec3>)
    requires |normals| == |faces|
    ensures forall k :: k in Accumulate(faces, normals) <==> k in Instances(faces)
    ensures forall k :: Get(Accumulate(faces, normals), k) == IncidentSum(Instances(faces), Triplicate(normals), k)
    decreases |faces|
  {
    if |faces| > 0 {
      var n := |faces| - 1;
      var f, v := faces[n], normals[n];
      AccumulateIsIncidentSum(faces[..n], normals[..n]);
      assert faces == faces[..n] + [f];
      assert normals == normals[..n] + [v];
      InstancesAppend(faces[..n], [f]);
      assert Instances([f]) == [f.a, f.b, f.c];
      TriplicateAppend(normals[..n], v);
      var ks, vs := Instances(faces[..n]), Triplicate(normals[..n]);
      assert Instances(faces) == ks + [f.a, f.b, f.c];
      assert Triplicate(normals) == vs + [v, v, v];
      forall k
        ensures Get(Accumulate(faces, normals), k) == IncidentSum(Instances(faces), Triplicate(normals), k)
      {
        IncidentSumAppend3(ks, vs, f.a, f.b, f.c, v, k);
      }
      var m0 := Accumulate(faces[..n], normals[..n]);
      assert Accumulate(faces, normals) == Bump(Bump(Bump(m0, f.a, v), f.b, v), f.c, v);
      forall k
        ensures k in Accumulate(faces, normals) <==> k in Instances(faces)
      {
        assert k in Accumulate(faces, normals) <==> k in m0 || k == f.a || k == f.b || k == f.c;
        assert k in ks + [f.a, f.b, f.c] <==> k in ks || k == f.a || k == f.b || k == f.c;
      }
    }
  }

  /** Every vertex instance has an entry in the accumulated map. */
  lemma AccumulateCoversInstances(faces: seq<Face>, normals: seq<Vec3>)
    requires |normals| == |faces|
    ensures forall i :: 0 <= i < |Instances(faces)| ==> Instances(faces)[i] in Accumulate(faces, normals)
  {
    AccumulateIsIncidentSum(faces, normals);
    var ks := Instances(faces);
    forall i | 0 <= i < |ks|
      ensures ks[i] in Accumulate(faces, normals)
    {
      assert ks[i] in ks;
      assert ks[i] in Accumulate(faces, normals) <==> ks[i] in Instances(faces);
    }
  }

  /** The second loop of the smooth pass over the vertex instances. Each instance
      normalises its vertex's entry IN the map, so a vertex's later instances see
      the already normalised vector, and appends it. */
  function SmoothPass(ks: seq<int>, m: map<int, Vec3>, sqrt: real -> real): (r: seq<real>)
    requires forall i :: 0 <= i < |ks| ==> ks[i] in m
    ensures |r| == 3 * |ks|
    ensures forall i :: 0 <= i < |ks| && FirstUse(ks, i) ==> r[3 * i..3 * i + 3] == ToTuple(Normalize(m[ks[i]], sqrt))
    decreases |ks|
  {
    if |ks| == 0 then []
    else
      var v := Normalize(m[ks[0]], sqrt);
      var rest := SmoothPass(ks[1..], m[ks[0] := v], sqrt);
      SmoothPassStep(ks, m, sqrt, rest);
      ToTuple(v) + rest
  }

  /** Instance i is the first instance of its vertex. */
  predicate FirstUse(ks: seq<int>, i: int)
    requires 0 <= i < |ks|
  {
    ks[i] !in ks[..i]
  }

  /** One step of the smooth pass: the first instance gets its entry normalised,
      and a later first use of another vertex still sees that vertex's entry
      untouched. */
  lemma SmoothPassStep(ks: seq<int>, m: map<int, Vec3>, sqrt: real -> real, rest: seq<real>)
    requires |ks| > 0 && forall i :: 0 <= i < |ks| ==> ks[i] in m
    requires |rest| == 3 * (|ks| - 1)
    requires
      var m1 := m[ks[0] := Normalize(m[ks[0]], sqrt)];
      forall i :: 0 <= i < |ks[1..]| && FirstUse(ks[1..], i) ==> rest[3 * i..3 * i + 3] == ToTuple(Normalize(m1[ks[1..][i]], sqrt))
    ensures
      var r := ToTuple(Normalize(m[ks[0]], sqrt)) + rest;
      forall i :: 0 <= i < |ks| && FirstUse(ks, i) ==> r[3 * i..3 * i + 3] == ToTuple(Normalize(m[ks[i]], sqrt))
  {
    var m1 := m[ks[0] := Normalize(m[ks[0]], sqrt)];
    var r := ToTuple(Normalize(m[ks[0]], sqrt)) + rest;
    forall i | 0 <= i < |ks| && FirstUse(ks, i)
      ensures r[3 * i..3 * i + 3] == ToTuple(Normalize(m[ks[i]], sqrt))
    {
      if i == 0 {
        assert r[..3] == ToTuple(Normalize(m[ks[0]], sqrt));
      } else {
        assert ks[0] in ks[..i];
        assert ks[1..][i - 1] == ks[i];
        assert ks[1..][..i - 1] == ks[1..i];
        assert ks[..i] == [ks[0]] + ks[1..i];
        assert FirstUse(ks[1..], i - 1);
        assert m1[ks[i]] == m[ks[i]];
        assert r[3 * i..3 * i + 3] == rest[3 * (i - 1)..3 * (i - 1) + 3];
      }
    }
  }

  /** The normal every instance should get: its vertex's entry, normalised once. */
  function Normalized(ks: seq<int>, m: map<int, Vec3>, sqrt: real -> real): (r: seq<Tuple>)
    requires forall i :: 0 <= i < |ks| ==> ks[i] in m
    ensures |r| == |ks|
    ensures forall i :: 0 <= i < |ks| ==> r[i] == ToTuple(Normalize(m[ks[i]], sqrt))
  {
    seq(|ks|, i requires 0 <= i < |ks| => ToTuple(Normalize(m[ks[i]], sqrt)))
  }

  /** The in-place normalisation is harmless when the square root is exact: an
      entry normalised by an earlier instance normalises to itself, so every
      instance gets its vertex's entry normalised once. Stated for any map whose
      entries normalise like the original's. */
  lemma {:induction false} SmoothPassNormalizesOnce(ks: seq<int>, m: map<int, Vec3>, m0: map<int, Vec3>,
                                                    sqrt: real -> real)
    requires SqrtExact(sqrt)
    requires forall i :: 0 <= i < |ks| ==> ks[i] in m0 && ks[i] in m
    requires forall k :: k in m0 ==> k in m && Normalize(m[k], sqrt) == Normalize(m0[k], sqrt)
    ensures SmoothPass(ks, m, sqrt) == Flatten(Normalized(ks, m0, sqrt))
    decreases |ks|
  {
    if |ks| > 0 {
      var k0 := ks[0];
      var v := Normalize(m[k0], sqrt);
      var m1 := m[k0 := v];
      forall k | k in m0
        ensures k in m1 && Normalize(m1[k], sqrt) == Normalize(m0[k], sqrt)
      {
        if k == k0 {
          NormalizeIdempotent(m0[k0], sqrt);
        }
      }
      assert forall i :: 0 <= i < |ks[1..]| ==> ks[1..][i] == ks[i + 1];
      SmoothPassNormalizesOnce(ks[1..], m1, m0, sqrt);
      var all := Normalized(ks, m0, sqrt);
      assert all[1..] == Normalized(ks[1..], m0, sqrt);
    }
  }

  /** calculateOffNormals. Flat mode appends each recorded face normal three
      times; smooth mode accumulates the face normals per vertex and appends one
      normalised sum per vertex instance. Only the output normal array changes. */
  function CalculateOffNormals(s: Session, smooth: bool, sqrt: real -> real): (r: Result<Session>)
    ensures !smooth ==> r.Ok?
    ensures smooth ==> (r.Ok? <==> NormalsCover(s.tempFace, s.tempNormal))
    ensures r.Ok? ==> r.value == s.(vertexNormal := r.value.vertexNormal)
    ensures r.Ok? ==> s.vertexNormal <= r.value.vertexNormal
    ensures r.Ok? && smooth ==> |r.value.vertexNormal| == |s.vertexNormal| + 9 * |s.tempFace|
  {
    if !smooth then Ok(s.(vertexNormal := s.vertexNormal + FlatNormals(s.tempNormal)))
    else if !NormalsCover(s.tempFace, s.tempNormal) then Err(IndexOutOfRange)
    else
      var m := Accumulate(s.tempFace, FaceNormals(s.tempFace, s.tempNormal));
      AccumulateCoversInstances(s.tempFace, FaceNormals(s.tempFace, s.tempNormal));
      Ok(s.(vertexNormal := s.vertexNormal + SmoothPass(Instances(s.tempFace), m, sqrt)))
  }

  /** The smooth normal of every vertex instance of the flat triangle list: the
      normalised sum of the recorded normals around its vertex. */
  function SmoothReference(faces: seq<Face>, normals: seq<Tuple>, sqrt: real -> real): (r: seq<Tuple>)
    requires NormalsCover(faces, normals)
    ensures |r| == 3 * |faces|
    ensures forall i :: 0 <= i < |r| ==> |r[i]| == 3
    ensures forall i, j :: 0 <= i < |r| && 0 <= j < |r| && Instances(faces)[i] == Instances(faces)[j] ==> r[i] == r[j]
  {
    var ks, vs := Instances(faces), Triplicate(FaceNormals(faces, normals));
    seq(|ks|, i requires 0 <= i < |ks| => ToTuple(Normalize(IncidentSum(ks, vs, ks[i]), sqrt)))
  }

  /** Flat mode never fails and appends the recorded normals, three copies each;
      only the output normal array changes. */
  lemma FlatNormalsAppended(s: Session, sqrt: real -> real)
    ensures CalculateOffNormals(s, false, sqrt) == Ok(s.(vertexNormal := s.vertexNormal + Flatten(Triplicate(s.tempNormal))))
  {
  }

  /** With an exact square root, smooth mode appends the reference smooth normals:
      per vertex instance, the normalised sum of the normals of the faces around
      its vertex. Only the output normal array changes. */
  lemma SmoothNormalsAreReference(s: Session, sqrt: real -> real)
    requires SqrtExact(sqrt)
    requires NormalsCover(s.tempFace, s.tempNormal)
    ensures CalculateOffNormals(s, true, sqrt)
      == Ok(s.(vertexNormal := s.vertexNormal + Flatten(SmoothReference(s.tempFace, s.tempNormal, sqrt))))
  {
    var fns := FaceNormals(s.tempFace, s.tempNormal);
    var m := Accumulate(s.tempFace, fns);
    var ks := Instances(s.tempFace);
    AccumulateIsIncidentSum(s.tempFace, fns);
    AccumulateCoversInstances(s.tempFace, fns);
    SmoothPassNormalizesOnce(ks, m, m, sqrt);
    var vs := Triplicate(fns);
    assert Normalized(ks, m, sqrt) == SmoothReference(s.tempFace, s.tempNormal, sqrt) by {
      forall i | 0 <= i < |ks|
        ensures m[ks[i]] == IncidentSum(ks, vs, ks[i])
      {
        assert ks[i] in ks;
        assert Get(m, ks[i]) == IncidentSum(ks, vs, ks[i]);
      }
    }
  }

  /** With an exact square root, smooth mode gives every instance of the same
      vertex the same normal: the numbers appended for instance i and instance j
      agree component by component. */
  lemma SmoothSharedVertex(s: Session, sqrt: real -> real, i: int, j: int, c: int)
    requires SqrtExact(sqrt)
    requires NormalsCover(s.tempFace, s.tempNormal)
    requires 0 <= i < 3 * |s.tempFace| && 0 <= j < 3 * |s.tempFace| && 0 <= c < 3
    requires Instances(s.tempFace)[i] == Instances(s.tempFace)[j]
    ensures CalculateOffNormals(s, true, sqrt).Ok?
    ensures
      var out, n := CalculateOffNormals(s, true, sqrt).value.vertexNormal, |s.vertexNormal|;
      |out| == n + 9 * |s.tempFace| && out[n + 3 * i + c] == out[n + 3 * j + c]
  {
    var ref := SmoothReference(s.tempFace, s.tempNormal, sqrt);
    SmoothNormalsAreReference(s, sqrt);
    var out := CalculateOffNormals(s, true, sqrt).value.vertexNormal;
    SameTupleSameNumbers(s.vertexNormal, ref, out, i, j, c);
  }

  /** Equal tuples of a flattened triple list give equal numbers. */
  lemma SameTupleSameNumbers(pre: seq<real>, ts: seq<Tuple>, out: seq<real>, i: int, j: int, c: int)
    requires forall k :: 0 <= k < |ts| ==> |ts[k]| == 3
    requires 0 <= i < |ts| && 0 <= j < |ts| && 0 <= c < 3 && ts[i] == ts[j]
    requires out == pre + Flatten(ts)
    ensures |out| == |pre| + 3 * |ts|
    ensures out[|pre| + 3 * i + c] == out[|pre| + 3 * j + c]
  {
    FlattenTriples(ts);
    var f := Flatten(ts);
    assert out[|pre| + 3 * i + c] == f[3 * i + c] == ts[i][c];
    assert out[|pre| + 3 * j + c] == f[3 * j + c] == ts[j][c];
  }

}
