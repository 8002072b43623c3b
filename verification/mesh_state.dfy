/** The conversion session: the program's package-level variables gathered into one
    immutable record, and the flat-triangle-list vocabulary used to describe it. */
module MeshState {

  /** One entry of a temporary table: the numbers of one `v`, `vn` or `vt` record
      (or one computed face normal). */
  type Tuple = seq<real>

  /** A recorded OFF triangle: three indices into the vertex table. */
  datatype Face = Face(a: int, b: int, c: int) {

    /** All three corners index a table of `n` entries. */
    predicate Within(n: int)
    {
      0 <= a < n && 0 <= b < n && 0 <= c < n
    }
  }

  /** The converter's state. `vertices` counts emitted vertex instances (three per
      triangle, two per line); `vertex`, `vertexNormal` and `textureCoordinate` are
      the flat output arrays; the `temp` tables hold what the input declared. */
  datatype Session = Session(
    vertices: nat,
    vertex: seq<real>,
    vertexNormal: seq<real>,
    textureCoordinate: seq<real>,
    tempFace: seq<Face>,
    tempVertex: seq<Tuple>,
    tempNormal: seq<Tuple>,
    tempTextureCoordinate: seq<Tuple>)

  /** The state before the first line is read. */
  const Initial := Session(0, [], [], [], [], [], [], [])

  /** Every entry has exactly three numbers. */
  predicate Triples(ts: seq<Tuple>)
  {
    forall i :: 0 <= i < |ts| ==> |ts[i]| == 3
  }

  /** The tuples one after the other. */
  function Flatten(ts: seq<Tuple>): seq<real>
  {
    if |ts| == 0 then [] else ts[0] + Flatten(ts[1..])
  }

  lemma {:induction false} FlattenConcat(a: seq<Tuple>, b: seq<Tuple>)
    ensures Flatten(a + b) == Flatten(a) + Flatten(b)
    decreases |a|
  {
    if |a| == 0 {
      assert a + b == b;
    } else {
      assert (a + b)[1..] == a[1..] + b;
      FlattenConcat(a[1..], b);
    }
  }

  lemma FlattenThree(ts: seq<Tuple>)
    requires |ts| == 3
    ensures Flatten(ts) == ts[0] + ts[1] + ts[2]
  {
    assert ts[1..][0] == ts[1] && ts[1..][1..][0] == ts[2];
    assert ts[1..][1..][1..] == [];
    assert Flatten(ts[1..][1..]) == ts[2] + [];
  }

  /** Flattening triples: three numbers per entry, entry `v` at offset 3v. */
  lemma {:induction false} FlattenTriples(ts: seq<Tuple>)
    requires Triples(ts)
    ensures |Flatten(ts)| == 3 * |ts|
    ensures forall v, c :: 0 <= v < |ts| && 0 <= c < 3 ==> Flatten(ts)[3 * v + c] == ts[v][c]
    decreases |ts|
  {
    if |ts| > 0 {
      FlattenTriples(ts[1..]);
      assert Flatten(ts) == ts[0] + Flatten(ts[1..]);
      forall v, c | 0 <= v < |ts| && 0 <= c < 3
        ensures Flatten(ts)[3 * v + c] == ts[v][c]
      {
        if v > 0 {
          assert ts[1..][v - 1] == ts[v];
          assert Flatten(ts)[3 * v + c] == Flatten(ts[1..])[3 * (v - 1) + c];
        }
      }
    }
  }

  /** The vertex instances of a list of triangles: the corners, face by face. */
  function Instances(faces: seq<Face>): (r: seq<int>)
    ensures |r| == 3 * |faces|
    ensures forall f :: 0 <= f < |faces| ==>
      r[3 * f] == faces[f].a && r[3 * f + 1] == faces[f].b && r[3 * f + 2] == faces[f].c
  {
    if |faces| == 0 then []
    else
      var n := |faces| - 1;
      var r := Instances(faces[..n]) + [faces[n].a, faces[n].b, faces[n].c];
      assert forall f :: 0 <= f < n ==> faces[..n][f] == faces[f];
      r
  }

  lemma InstancesAppend(faces: seq<Face>, more: seq<Face>)
    ensures Instances(faces + more) == Instances(faces) + Instances(more)
  {
    var l, r := Instances(faces + more), Instances(faces) + Instances(more);
    assert |l| == |r|;
    forall i | 0 <= i < |l|
      ensures l[i] == r[i]
    {
      var f, j := i / 3, i % 3;
      assert i == 3 * f + j;
      if f < |faces| {
        assert (faces + more)[f] == faces[f];
      } else {
        assert (faces + more)[f] == more[f - |faces|];
        assert i - 3 * |faces| == 3 * (f - |faces|) + j;
      }
    }
  }

  /** Every corner of every face indexes a table of `n` entries. */
  predicate FacesWithin(faces: seq<Face>, n: int)
  {
    forall f :: 0 <= f < |faces| ==> faces[f].Within(n)
  }

  lemma InstancesWithin(faces: seq<Face>, n: int)
    requires FacesWithin(faces, n)
    ensures forall i :: 0 <= i < |Instances(faces)| ==> 0 <= Instances(faces)[i] < n
  {
    var ks := Instances(faces);
    forall i | 0 <= i < |ks|
      ensures 0 <= ks[i] < n
    {
      var f := i / 3;
      assert faces[f].Within(n);
      assert i == 3 * f || i == 3 * f + 1 || i == 3 * f + 2;
    }
  }

  /** The table entries the indices name, in order. */
  function Gather(table: seq<Tuple>, ks: seq<int>): (r: seq<Tuple>)
    requires forall i :: 0 <= i < |ks| ==> 0 <= ks[i] < |table|
    ensures |r| == |ks|
    ensures forall i :: 0 <= i < |ks| ==> r[i] == table[ks[i]]
  {
    seq(|ks|, i requires 0 <= i < |ks| => table[ks[i]])
  }

  lemma GatherConcat(table: seq<Tuple>, xs: seq<int>, ys: seq<int>)
    requires forall i :: 0 <= i < |xs| ==> 0 <= xs[i] < |table|
    requires forall i :: 0 <= i < |ys| ==> 0 <= ys[i] < |table|
    ensures forall i :: 0 <= i < |xs + ys| ==> 0 <= (xs + ys)[i] < |table|
    ensures Gather(table, xs + ys) == Gather(table, xs) + Gather(table, ys)
  {
  }

  /** The position data of a flat triangle list: the table tuple of every vertex
      instance, face by face, corner by corner. */
  function Positions(table: seq<Tuple>, faces: seq<Face>): seq<real>
    requires FacesWithin(faces, |table|)
  {
    InstancesWithin(faces, |table|);
    Flatten(Gather(table, Instances(faces)))
  }

  /** With three numbers per table entry, a flat triangle list holds nine
      numbers per face. */
  lemma PositionsLength(table: seq<Tuple>, faces: seq<Face>)
    requires Triples(table) && FacesWithin(faces, |table|)
    ensures |Positions(table, faces)| == 9 * |faces|
  {
    InstancesWithin(faces, |table|);
    var g := Gather(table, Instances(faces));
    assert Triples(g);
    FlattenTriples(g);
  }
}
