/** The geometry builder: addObjLine, addObjFace and addOffFace, and the OFF
    polygon fan. Every emitted vertex instance copies its table tuple into the
    flat position array and bumps the `vertices` counter. */
module Builder {
  import opened Results
  import opened Text
  import opened Numbers
  import opened Index
  import opened Vectors
  import opened MeshState

  // ---------------------------------------------------------------- OBJ

  /** An OBJ index token resolved against a table: Atoi, objIndexToArrayIndex and
      the slice index, each of which can fail. */
  function ObjLookup(rt: Runtime, policy: IndexPolicy, table: seq<Tuple>, token: string): (r: Result<Tuple>)
    ensures r.Ok? <==> rt.atoi(token).Some? && Names(policy, rt.atoi(token).value, |table|)
    ensures r.Ok? && rt.atoi(token).value > 0 ==> r.value == table[rt.atoi(token).value - 1]
    ensures r.Ok? && rt.atoi(token).value < 0 ==> r.value == table[|table| + rt.atoi(token).value]
  {
    var i :- StringToInt(rt, token);
    Lookup(table, Resolve(policy, i, |table|))
  }

  /** The data one `v/vt/vn` face reference names: always a position, and a texture
      coordinate or normal when the corresponding field is present. */
  datatype Emission = Emission(position: Tuple, texCoord: Option<Tuple>, normal: Option<Tuple>)

  /** The `k`-th '/'-separated field exists and is not empty. */
  predicate HasField(fields: seq<string>, k: nat)
  {
    |fields| > k && fields[k] != ""
  }

  /** An optional field of a face reference, looked up only when present. */
  function OptionalLookup(rt: Runtime, policy: IndexPolicy, table: seq<Tuple>, fields: seq<string>, k: nat)
    : (r: Result<Option<Tuple>>)
    ensures !HasField(fields, k) ==> r == Ok(None)
    ensures HasField(fields, k) ==> (r.Ok? <==> ObjLookup(rt, policy, table, fields[k]).Ok?)
    ensures HasField(fields, k) && r.Ok? ==> r.value == Some(ObjLookup(rt, policy, table, fields[k]).value)
  {
    if HasField(fields, k) then
      var t :- ObjLookup(rt, policy, table, fields[k]);
      Ok(Some(t))
    else Ok(None)
  }

  /** One iteration of addObjFace's loop, before anything is appended: split the
      reference on '/', resolve the position (field 0, always), the texture
      coordinate (field 1) and the normal (field 2). */
  function ResolveReference(rt: Runtime, policy: IndexPolicy, positions: seq<Tuple>,
                            texCoords: seq<Tuple>, normals: seq<Tuple>, ref: string): (r: Result<Emission>)
    ensures r.Ok? <==>
      var fields := Split(ref, '/');
      && ObjLookup(rt, policy, positions, fields[0]).Ok?
      && (HasField(fields, 1) ==> ObjLookup(rt, policy, texCoords, fields[1]).Ok?)
      && (HasField(fields, 2) ==> ObjLookup(rt, policy, normals, fields[2]).Ok?)
    ensures r.Ok? ==> r.value.position == ObjLookup(rt, policy, positions, Split(ref, '/')[0]).value
    ensures r.Ok? && HasField(Split(ref, '/'), 1) ==>
      r.value.texCoord == Some(ObjLookup(rt, policy, texCoords, Split(ref, '/')[1]).value)
    ensures r.Ok? && HasField(Split(ref, '/'), 2) ==>
      r.value.normal == Some(ObjLookup(rt, policy, normals, Split(ref, '/')[2]).value)
    ensures r.Ok? ==> r.value.position in positions
    ensures r.Ok? ==> (r.value.texCoord.Some? <==> HasField(Split(ref, '/'), 1))
    ensures r.Ok? ==> (r.value.normal.Some? <==> HasField(Split(ref, '/'), 2))
    ensures r.Ok? && r.value.texCoord.Some? ==> r.value.texCoord.value in texCoords
    ensures r.Ok? && r.value.normal.Some? ==> r.value.normal.value in normals
  {
    var fields := Split(ref, '/');
    var p :- ObjLookup(rt, policy, positions, fields[0]);
    var t :- OptionalLookup(rt, policy, texCoords, fields, 1);
    var n :- OptionalLookup(rt, policy, normals, fields, 2);
    Ok(Emission(p, t, n))
  }

  function OrEmpty(t: Option<Tuple>): Tuple
  {
    if t.Some? then t.value else []
  }

  /** Appends one resolved reference to the output arrays and counts the instance. */
  function Emit(s: Session, e: Emission): Session
  {
    s.(vertices := s.vertices + 1,
       vertex := s.vertex + e.position,
       textureCoordinate := s.textureCoordinate + OrEmpty(e.texCoord),
       vertexNormal := s.vertexNormal + OrEmpty(e.normal))
  }

  /** The references' emissions, in reference order. */
  function Emissions(rt: Runtime, policy: IndexPolicy, s: Session, refs: seq<string>): (es: seq<Emission>)
    requires forall k :: 0 <= k < |refs| ==> Resolves(rt, policy, s, refs[k])
    ensures |es| == |refs|
    ensures forall k :: 0 <= k < |refs| ==>
      es[k] == Resolved(rt, policy, s, refs[k])
  {
    seq(|refs|, k requires 0 <= k < |refs| => Resolved(rt, policy, s, refs[k]))
  }

  function PositionData(es: seq<Emission>): seq<real>
  {
    if |es| == 0 then [] else es[0].position + PositionData(es[1..])
  }

  function TexCoordData(es: seq<Emission>): seq<real>
  {
    if |es| == 0 then [] else OrEmpty(es[0].texCoord) + TexCoordData(es[1..])
  }

  function NormalData(es: seq<Emission>): seq<real>
  {
    if |es| == 0 then [] else OrEmpty(es[0].normal) + NormalData(es[1..])
  }

  /** addObjFace's loop over an arbitrary number of references. It succeeds exactly
      when every reference resolves; then each output array is extended by the
      references' data in reference order, the counter grows by one per reference,
      and the temporary tables are untouched. */
  function AddObjRefs(rt: Runtime, policy: IndexPolicy, s: Session, refs: seq<string>): (r: Result<Session>)
    ensures r.Ok? <==> forall k :: 0 <= k < |refs| ==> Resolves(rt, policy, s, refs[k])
    decreases |refs|
  {
    if |refs| == 0 then Ok(s)
    else
      var e :- ResolveReference(rt, policy, s.tempVertex, s.tempTextureCoordinate, s.tempNormal, refs[0]);
      assert forall k :: 0 < k < |refs| ==> refs[1..][k - 1] == refs[k];
      AddObjRefs(rt, policy, Emit(s, e), refs[1..])
  }

  /** What a successful AddObjRefs appends: each output array is extended by the
      references' data in reference order, the counter grows by one per reference,
      and the temporary tables and faces are untouched. */
  lemma {:induction false} AddObjRefsData(rt: Runtime, policy: IndexPolicy, s: Session, refs: seq<string>)
    requires AddObjRefs(rt, policy, s, refs).Ok?
    ensures forall k :: 0 <= k < |refs| ==> Resolves(rt, policy, s, refs[k])
    ensures
      var r, es := AddObjRefs(rt, policy, s, refs).value, Emissions(rt, policy, s, refs);
      && r.vertices == s.vertices + |refs|
      && r.vertex == s.vertex + PositionData(es)
      && r.textureCoordinate == s.textureCoordinate + TexCoordData(es)
      && r.vertexNormal == s.vertexNormal + NormalData(es)
      && SameTables(r, s)
    decreases |refs|
  {
    if |refs| > 0 {
      var e := ResolveReference(rt, policy, s.tempVertex, s.tempTextureCoordinate, s.tempNormal, refs[0]).value;
      var s1 := Emit(s, e);
      assert AddObjRefs(rt, policy, s, refs) == AddObjRefs(rt, policy, s1, refs[1..]);
      AddObjRefsData(rt, policy, s1, refs[1..]);
      EmissionsStep(rt, policy, s, e, refs);
      EmitStep(s, e, AddObjRefs(rt, policy, s1, refs[1..]).value, Emissions(rt, policy, s1, refs[1..]));
    }
  }

  /** One emission, then further ones: together they append all their data. */
  lemma EmitStep(s: Session, e: Emission, r: Session, rest: seq<Emission>)
    requires r.vertex == Emit(s, e).vertex + PositionData(rest)
    requires r.textureCoordinate == Emit(s, e).textureCoordinate + TexCoordData(rest)
    requires r.vertexNormal == Emit(s, e).vertexNormal + NormalData(rest)
    ensures r.vertex == s.vertex + (e.position + PositionData(rest))
    ensures r.textureCoordinate == s.textureCoordinate + (OrEmpty(e.texCoord) + TexCoordData(rest))
    ensures r.vertexNormal == s.vertexNormal + (OrEmpty(e.normal) + NormalData(rest))
  {
  }

  /** The declared tables and the recorded faces are those of `t`. */
  predicate SameTables(s: Session, t: Session)
  {
    && s.tempVertex == t.tempVertex && s.tempNormal == t.tempNormal
    && s.tempTextureCoordinate == t.tempTextureCoordinate && s.tempFace == t.tempFace
  }

  /** The bookkeeping of AddObjRefs' inductive step: emitting the first reference
      leaves the tables, hence the other references' emissions, unchanged. */
  lemma EmissionsStep(rt: Runtime, policy: IndexPolicy, s: Session, e: Emission, refs: seq<string>)
    requires |refs| > 0
    requires forall k :: 0 <= k < |refs| ==> Resolves(rt, policy, s, refs[k])
    requires e == Resolved(rt, policy, s, refs[0])
    ensures
      var es := Emissions(rt, policy, s, refs);
      var rest := Emissions(rt, policy, Emit(s, e), refs[1..]);
      && PositionData(es) == e.position + PositionData(rest)
      && TexCoordData(es) == OrEmpty(e.texCoord) + TexCoordData(rest)
      && NormalData(es) == OrEmpty(e.normal) + NormalData(rest)
  {
    var es := Emissions(rt, policy, s, refs);
    var s1 := Emit(s, e);
    assert s1.tempVertex == s.tempVertex && s1.tempTextureCoordinate == s.tempTextureCoordinate
      && s1.tempNormal == s.tempNormal;
    var rest := Emissions(rt, policy, s1, refs[1..]);
    assert rest == es[1..];
  }

  /** addObjFace: three references, three vertex instances; the positions of a,
      b and c are appended in that order and the tables are untouched. */
  function AddObjFace(rt: Runtime, policy: IndexPolicy, s: Session, a: string, b: string, c: string)
    : (r: Result<Session>)
    ensures r.Ok? <==>
      && Resolves(rt, policy, s, a) && Resolves(rt, policy, s, b) && Resolves(rt, policy, s, c)
    ensures r.Ok? ==>
      && r.value.vertices == s.vertices + 3
      && r.value.vertex == s.vertex + PositionOf(rt, policy, s, a) + PositionOf(rt, policy, s, b)
                                    + PositionOf(rt, policy, s, c)
      && r.value.textureCoordinate == s.textureCoordinate + TexCoordData(Emissions(rt, policy, s, [a, b, c]))
      && r.value.vertexNormal == s.vertexNormal + NormalData(Emissions(rt, policy, s, [a, b, c]))
      && SameTables(r.value, s)
  {
    var r := AddObjRefs(rt, policy, s, [a, b, c]);
    if r.Ok? then
      AddObjRefsData(rt, policy, s, [a, b, c]);
      var es := Emissions(rt, policy, s, [a, b, c]);
      assert PositionData(es) == es[0].position + es[1].position + es[2].position by {
        assert es[1..][0] == es[1] && es[1..][1..][0] == es[2];
        assert es[1..][1..][1..] == [];
        assert PositionData(es[1..][1..]) == es[2].position + [];
        assert PositionData(es[1..]) == es[1].position + es[2].position;
      }
      r
    else
      assert !Resolves(rt, policy, s, [a, b, c][0]) || !Resolves(rt, policy, s, [a, b, c][1])
        || !Resolves(rt, policy, s, [a, b, c][2]);
      r
  }

  /** The reference resolves against the session's tables. */
  predicate Resolves(rt: Runtime, policy: IndexPolicy, s: Session, ref: string)
  {
    ResolveReference(rt, policy, s.tempVertex, s.tempTextureCoordinate, s.tempNormal, ref).Ok?
  }

  /** Resolution reads only the declared tables. */
  lemma SameTablesResolve(s: Session, t: Session, rt: Runtime, policy: IndexPolicy, ref: string)
    requires SameTables(s, t)
    ensures Resolves(rt, policy, s, ref) == Resolves(rt, policy, t, ref)
    ensures Resolves(rt, policy, s, ref) ==> Resolved(rt, policy, s, ref) == Resolved(rt, policy, t, ref)
    ensures Resolves(rt, policy, s, ref) ==> PositionOf(rt, policy, s, ref) == PositionOf(rt, policy, t, ref)
  {
  }

  /** Sessions with the same tables give the same emissions. */
  lemma SameTablesEmissions(s: Session, t: Session, rt: Runtime, policy: IndexPolicy, refs: seq<string>)
    requires SameTables(s, t)
    requires forall k :: 0 <= k < |refs| ==> Resolves(rt, policy, s, refs[k])
    ensures forall k :: 0 <= k < |refs| ==> Resolves(rt, policy, t, refs[k])
    ensures Emissions(rt, policy, s, refs) == Emissions(rt, policy, t, refs)
  {
    forall k | 0 <= k < |refs|
      ensures Resolves(rt, policy, t, refs[k])
      ensures Resolved(rt, policy, s, refs[k]) == Resolved(rt, policy, t, refs[k])
    {
      SameTablesResolve(s, t, rt, policy, refs[k]);
    }
  }

  /** The position tuple a resolving reference names. */
  function PositionOf(rt: Runtime, policy: IndexPolicy, s: Session, ref: string): Tuple
    requires Resolves(rt, policy, s, ref)
  {
    Resolved(rt, policy, s, ref).position
  }

  /** The emission of a resolving reference. */
  function Resolved(rt: Runtime, policy: IndexPolicy, s: Session, ref: string): Emission
    requires Resolves(rt, policy, s, ref)
  {
    ResolveReference(rt, policy, s.tempVertex, s.tempTextureCoordinate, s.tempNormal, ref).value
  }

  /** addObjLine: two plain index tokens (no '/' fields), two vertex instances;
      nothing but the position array and the counter changes. */
  function AddObjLine(rt: Runtime, policy: IndexPolicy, s: Session, a: string, b: string): (r: Result<Session>)
    ensures r.Ok? <==>
      ObjLookup(rt, policy, s.tempVertex, a).Ok? && ObjLookup(rt, policy, s.tempVertex, b).Ok?
    ensures r.Ok? ==>
      r.value == s.(vertices := s.vertices + 2,
                    vertex := s.vertex + ObjLookup(rt, policy, s.tempVertex, a).value
                                       + ObjLookup(rt, policy, s.tempVertex, b).value)
  {
    var p :- ObjLookup(rt, policy, s.tempVertex, a);
    var s1 := s.(vertex := s.vertex + p, vertices := s.vertices + 1);
    var q :- ObjLookup(rt, policy, s1.tempVertex, b);
    Ok(s1.(vertex := s1.vertex + q, vertices := s1.vertices + 1))
  }

  // ---------------------------------------------------------------- OFF

  /** The three index tokens of one addOffFace call. */
  datatype TokenTriangle = TokenTriangle(a: string, b: string, c: string)

  /** The first three numbers of a table tuple; Go panics on a shorter one. */
  function ToVec3(t: Tuple): (r: Result<Vec3>)
    ensures r.Ok? <==> |t| >= 3
    ensures r.Ok? ==> ToTuple(r.value) == t[..3]
  {
    if |t| >= 3 then Ok(Vec3(t[0], t[1], t[2])) else Err(IndexOutOfRange)
  }

  /** The face a token triangle denotes, when all three tokens parse. */
  function ParsedFace(rt: Runtime, t: TokenTriangle): Option<Face>
  {
    if rt.atoi(t.a).Some? && rt.atoi(t.b).Some? && rt.atoi(t.c).Some? then
      Some(Face(rt.atoi(t.a).value, rt.atoi(t.b).value, rt.atoi(t.c).value))
    else None
  }

  /** addOffFace succeeds on this triangle: the tokens parse to raw (0-based)
      indices into the vertex table whose tuples have at least three numbers. */
  predicate OffTriangleValid(rt: Runtime, table: seq<Tuple>, t: TokenTriangle)
  {
    ParsedFace(rt, t).Some? && CornersValid(table, ParsedFace(rt, t).value)
  }

  /** The face's corners index the table, and each corner tuple has at least
      three numbers. */
  predicate CornersValid(table: seq<Tuple>, f: Face)
  {
    f.Within(|table|) && |table[f.a]| >= 3 && |table[f.b]| >= 3 && |table[f.c]| >= 3
  }

  function Vertex3(table: seq<Tuple>, i: int): Vec3
    requires 0 <= i < |table| && |table[i]| >= 3
  {
    Vec3(table[i][0], table[i][1], table[i][2])
  }

  /** The normal addOffFace records for a face: the normalised cross product of its
      two edges from the first corner. */
  function NormalOf(table: seq<Tuple>, f: Face, sqrt: real -> real): Tuple
    requires CornersValid(table, f)
  {
    ToTuple(FaceNormal(Vertex3(table, f.a), Vertex3(table, f.b), Vertex3(table, f.c), sqrt))
  }

  /** addOffFace: OFF indices are used raw. It succeeds exactly when the triangle
      is valid; then the three corner tuples are appended, the counter grows by 3,
      and one face and its normal are recorded together. */
  function AddOffFace(rt: Runtime, s: Session, t: TokenTriangle): (r: Result<Session>)
    ensures r.Ok? <==> OffTriangleValid(rt, s.tempVertex, t)
    ensures r.Ok? ==>
      var f := ParsedFace(rt, t).value;
      r.value == s.(vertices := s.vertices + 3,
                    vertex := s.vertex + s.tempVertex[f.a] + s.tempVertex[f.b] + s.tempVertex[f.c],
                    tempFace := s.tempFace + [f],
                    tempNormal := s.tempNormal + [NormalOf(s.tempVertex, f, rt.sqrt)])
  {
    var i0 :- StringToInt(rt, t.a);
    var p0 :- Lookup(s.tempVertex, i0);
    var i1 :- StringToInt(rt, t.b);
    var p1 :- Lookup(s.tempVertex, i1);
    var i2 :- StringToInt(rt, t.c);
    var p2 :- Lookup(s.tempVertex, i2);
    var v0 :- ToVec3(p0);
    var v1 :- ToVec3(p1);
    var v2 :- ToVec3(p2);
    Ok(s.(vertices := s.vertices + 3,
          vertex := s.vertex + p0 + p1 + p2,
          tempFace := s.tempFace + [Face(i0, i1, i2)],
          tempNormal := s.tempNormal + [ToTuple(FaceNormal(v0, v1, v2, rt.sqrt))]))
  }

  /** The faces a sequence of valid token triangles denotes. */
  function ParsedFaces(rt: Runtime, table: seq<Tuple>, ts: seq<TokenTriangle>): (fs: seq<Face>)
    requires forall k :: 0 <= k < |ts| ==> OffTriangleValid(rt, table, ts[k])
    ensures |fs| == |ts|
    ensures FacesWithin(fs, |table|)
  {
    seq(|ts|, k requires 0 <= k < |ts| && OffTriangleValid(rt, table, ts[k]) => ParsedFace(rt, ts[k]).value)
  }

  /** The recorded normals of faces. */
  function NormalsOf(table: seq<Tuple>, fs: seq<Face>, sqrt: real -> real): (ns: seq<Tuple>)
    requires forall k :: 0 <= k < |fs| ==> CornersValid(table, fs[k])
    ensures |ns| == |fs|
    ensures Triples(ns)
  {
    seq(|fs|, k requires 0 <= k < |fs| => NormalOf(table, fs[k], sqrt))
  }

  /** Repeated addOffFace calls: they succeed exactly when every triangle is valid. */
  function AddOffFaces(rt: Runtime, s: Session, ts: seq<TokenTriangle>): (r: Result<Session>)
    ensures r.Ok? <==> forall k :: 0 <= k < |ts| ==> OffTriangleValid(rt, s.tempVertex, ts[k])
    decreases |ts|
  {
    if |ts| == 0 then Ok(s)
    else
      var s1 :- AddOffFace(rt, s, ts[0]);
      assert forall k :: 0 < k < |ts| ==> ts[1..][k - 1] == ts[k];
      AddOffFaces(rt, s1, ts[1..])
  }

  /** What successful addOffFace calls record: the faces in order, each with its
      normal, their corner tuples appended as a flat triangle list, and three
      vertex instances per triangle; the OBJ-only arrays are untouched. */
  lemma {:induction false} AddOffFacesData(rt: Runtime, s: Session, ts: seq<TokenTriangle>)
    requires AddOffFaces(rt, s, ts).Ok?
    ensures forall k :: 0 <= k < |ts| ==> OffTriangleValid(rt, s.tempVertex, ts[k])
    ensures
      var r, fs := AddOffFaces(rt, s, ts).value, ParsedFaces(rt, s.tempVertex, ts);
      && r.vertices == s.vertices + 3 * |ts|
      && r.vertex == s.vertex + Positions(s.tempVertex, fs)
      && r.tempFace == s.tempFace + fs
      && r.tempNormal == s.tempNormal + NormalsOf(s.tempVertex, fs, rt.sqrt)
      && OffOnly(r, s)
    decreases |ts|
  {
    var table := s.tempVertex;
    if |ts| == 0 {
      assert ParsedFaces(rt, table, ts) == [];
      assert NormalsOf(table, [], rt.sqrt) == [];
      assert Positions(table, []) == [];
      assert s.vertex + [] == s.vertex && s.tempFace + [] == s.tempFace && s.tempNormal + [] == s.tempNormal;
    } else {
      var s1 := AddOffFace(rt, s, ts[0]).value;
      assert AddOffFaces(rt, s, ts) == AddOffFaces(rt, s1, ts[1..]);
      AddOffFacesData(rt, s1, ts[1..]);
      ParsedFacesCons(rt, table, ts);
      AppendFaceStep(s, s1, AddOffFaces(rt, s1, ts[1..]).value, table, ParsedFace(rt, ts[0]).value,
                     ParsedFaces(rt, table, ts[1..]), rt.sqrt);
    }
  }

  lemma ParsedFacesCons(rt: Runtime, table: seq<Tuple>, ts: seq<TokenTriangle>)
    requires |ts| > 0
    requires forall k :: 0 <= k < |ts| ==> OffTriangleValid(rt, table, ts[k])
    ensures forall k :: 0 <= k < |ts[1..]| ==> OffTriangleValid(rt, table, ts[1..][k])
    ensures ParsedFaces(rt, table, ts) == [ParsedFace(rt, ts[0]).value] + ParsedFaces(rt, table, ts[1..])
  {
    assert forall k :: 0 < k < |ts| ==> ts[1..][k - 1] == ts[k];
  }

  /** One face recorded, then further faces: together they record all of them. */
  lemma AppendFaceStep(s: Session, s1: Session, r: Session, table: seq<Tuple>, f: Face, rest: seq<Face>,
                       sqrt: real -> real)
    requires CornersValid(table, f)
    requires forall k :: 0 <= k < |rest| ==> CornersValid(table, rest[k])
    requires FacesWithin(rest, |table|)
    requires s1.vertex == s.vertex + table[f.a] + table[f.b] + table[f.c]
    requires s1.tempFace == s.tempFace + [f]
    requires s1.tempNormal == s.tempNormal + [NormalOf(table, f, sqrt)]
    requires r.vertex == s1.vertex + Positions(table, rest)
    requires r.tempFace == s1.tempFace + rest
    requires r.tempNormal == s1.tempNormal + NormalsOf(table, rest, sqrt)
    ensures FacesWithin([f] + rest, |table|)
    ensures r.vertex == s.vertex + Positions(table, [f] + rest)
    ensures r.tempFace == s.tempFace + ([f] + rest)
    ensures r.tempNormal == s.tempNormal + NormalsOf(table, [f] + rest, sqrt)
  {
    PositionsCons(s.vertex, table, f, rest);
    NormalsCons(s.tempNormal, table, f, rest, sqrt);
  }

  /** Only the vertex counter, the position array, the faces and the face normals
      differ between the two sessions. */
  predicate OffOnly(s: Session, t: Session)
  {
    && s.vertexNormal == t.vertexNormal && s.textureCoordinate == t.textureCoordinate
    && s.tempVertex == t.tempVertex && s.tempTextureCoordinate == t.tempTextureCoordinate
  }

  /** The normals of two runs of faces, one after the other. */
  lemma NormalsAppend(table: seq<Tuple>, fs: seq<Face>, gs: seq<Face>, sqrt: real -> real)
    requires forall k :: 0 <= k < |fs| ==> CornersValid(table, fs[k])
    requires forall k :: 0 <= k < |gs| ==> CornersValid(table, gs[k])
    ensures forall k :: 0 <= k < |fs + gs| ==> CornersValid(table, (fs + gs)[k])
    ensures NormalsOf(table, fs + gs, sqrt) == NormalsOf(table, fs, sqrt) + NormalsOf(table, gs, sqrt)
  {
    var all := fs + gs;
    assert forall k :: 0 <= k < |fs| ==> all[k] == fs[k];
    assert forall k :: |fs| <= k < |all| ==> all[k] == gs[k - |fs|];
    var l, r := NormalsOf(table, all, sqrt), NormalsOf(table, fs, sqrt) + NormalsOf(table, gs, sqrt);
    forall k | 0 <= k < |all|
      ensures l[k] == r[k]
    {
      if k < |fs| {
        assert l[k] == NormalOf(table, fs[k], sqrt);
      } else {
        assert l[k] == NormalOf(table, gs[k - |fs|], sqrt);
      }
    }
  }

  /** Appending one face's normal and then those of further faces appends the
      normals of all of them. */
  lemma NormalsCons(ns: seq<Tuple>, table: seq<Tuple>, f: Face, fs: seq<Face>, sqrt: real -> real)
    requires CornersValid(table, f)
    requires forall k :: 0 <= k < |fs| ==> CornersValid(table, fs[k])
    ensures ns + [NormalOf(table, f, sqrt)] + NormalsOf(table, fs, sqrt) == ns + NormalsOf(table, [f] + fs, sqrt)
  {
    assert forall k :: 0 < k <= |fs| ==> ([f] + fs)[k] == fs[k - 1];
    assert NormalsOf(table, [f] + fs, sqrt) == [NormalOf(table, f, sqrt)] + NormalsOf(table, fs, sqrt);
  }

  /** Appending one face's corner tuples and then the positions of further faces
      appends the positions of all of them. */
  lemma PositionsCons(v: seq<real>, table: seq<Tuple>, f: Face, fs: seq<Face>)
    requires f.Within(|table|) && FacesWithin(fs, |table|)
    ensures FacesWithin([f] + fs, |table|)
    ensures v + table[f.a] + table[f.b] + table[f.c] + Positions(table, fs) == v + Positions(table, [f] + fs)
  {
    PositionsConsOne(table, f, fs);
    var three := table[f.a] + table[f.b] + table[f.c];
    assert v + table[f.a] + table[f.b] + table[f.c] == v + three;
    assert v + three + Positions(table, fs) == v + (three + Positions(table, fs));
  }

  lemma PositionsConsOne(table: seq<Tuple>, f: Face, fs: seq<Face>)
    requires f.Within(|table|) && FacesWithin(fs, |table|)
    ensures FacesWithin([f] + fs, |table|)
    ensures Positions(table, [f] + fs) == table[f.a] + table[f.b] + table[f.c] + Positions(table, fs)
  {
    assert forall k :: 0 < k <= |fs| ==> ([f] + fs)[k] == fs[k - 1];
    InstancesAppend([f], fs);
    InstancesWithin([f] + fs, |table|);
    InstancesWithin(fs, |table|);
    var one := Instances([f]);
    assert one == [f.a, f.b, f.c];
    GatherConcat(table, one, Instances(fs));
    var three := Gather(table, one);
    assert |three| == 3 && three[0] == table[f.a] && three[1] == table[f.b] && three[2] == table[f.c];
    FlattenConcat(three, Gather(table, Instances(fs)));
    FlattenThree(three);
  }

  /** The triangles of a fan over polygon corners `toks`: the j-th is
      (toks[0], toks[j+1], toks[j+2]), so a k-gon gives k - 2 triangles. */
  function FanTokens(toks: seq<string>): (ts: seq<TokenTriangle>)
    requires |toks| >= 2
    ensures |ts| == |toks| - 2
    ensures forall j :: 0 <= j < |ts| ==> ts[j] == TokenTriangle(toks[0], toks[j + 1], toks[j + 2])
  {
    seq(|toks| - 2, j requires 0 <= j < |toks| - 2 => TokenTriangle(toks[0], toks[j + 1], toks[j + 2]))
  }

  /** The OFF reader's polygon loop, `for i := 1; i < count-1; i++`, taking
      parts[1], parts[i+1], parts[i+2] on each pass. */
  function OffFan(rt: Runtime, s: Session, parts: seq<string>, i: nat, count: int): (r: Result<Session>)
    requires 1 <= i
    ensures r.Ok? ==> FanAppended(rt, s, parts, i, count, r.value)
    decreases count - i
  {
    if i >= count - 1 then Ok(s)
    else if i + 2 >= |parts| then Err(IndexOutOfRange)
    else
      var s1 :- AddOffFace(rt, s, TokenTriangle(parts[1], parts[i + 1], parts[i + 2]));
      var r :- OffFan(rt, s1, parts, i + 1, count);
      OffFanStep(rt, s, s1, parts, i, count, r);
      Ok(r)
  }

  /** The passes left from pass `i` of a fan over `count` corners. */
  function Passes(i: int, count: int): nat
  {
    if i < count - 1 then count - 1 - i else 0
  }

  /** r is s with the fan triangles of passes i .. count-2 appended, in order:
      one face, one normal and three instances per pass, nothing else reordered. */
  predicate FanAppended(rt: Runtime, s: Session, parts: seq<string>, i: int, count: int, r: Session)
  {
    && |r.tempFace| == |s.tempFace| + Passes(i, count)
    && |r.tempNormal| == |s.tempNormal| + Passes(i, count)
    && r.vertices == s.vertices + 3 * Passes(i, count)
    && s.tempFace <= r.tempFace && s.vertex <= r.vertex && r.tempVertex == s.tempVertex
    && forall u :: i - 1 <= u < i - 1 + Passes(i, count) ==>
         FanFace(rt, parts, u).Some? && r.tempFace[|s.tempFace| + u - (i - 1)] == FanFace(rt, parts, u).value
  }

  /** The inductive step of OffFan: one more pass in front of the rest. */
  lemma OffFanStep(rt: Runtime, s: Session, s1: Session, parts: seq<string>, i: nat, count: int, r: Session)
    requires 1 <= i < count - 1 && i + 2 < |parts|
    requires AddOffFace(rt, s, TokenTriangle(parts[1], parts[i + 1], parts[i + 2])) == Ok(s1)
    requires FanAppended(rt, s1, parts, i + 1, count, r)
    ensures FanAppended(rt, s, parts, i, count, r)
  {
    var f := ParsedFace(rt, TokenTriangle(parts[1], parts[i + 1], parts[i + 2])).value;
    assert FanFace(rt, parts, i - 1) == Some(f);
    assert s1.tempFace == s.tempFace + [f];
    forall u | i - 1 <= u < i - 1 + Passes(i, count)
      ensures FanFace(rt, parts, u).Some? && r.tempFace[|s.tempFace| + u - (i - 1)] == FanFace(rt, parts, u).value
    {
      if u == i - 1 {
        assert r.tempFace[|s.tempFace|] == s1.tempFace[|s.tempFace|];
      }
    }
  }

  /** With enough tokens, the loop from pass `i` on is AddOffFaces over the rest of
      the fan; with too few, it fails. */
  lemma OffFanIsFan(rt: Runtime, s: Session, parts: seq<string>, i: nat, count: int)
    requires 1 <= i <= count - 1
    ensures |parts| > count ==>
      OffFan(rt, s, parts, i, count) == AddOffFaces(rt, s, FanTokens(parts[1..count + 1])[i - 1..])
    ensures |parts| <= count && i < count - 1 ==> OffFan(rt, s, parts, i, count).Err?
  {
    if |parts| > count {
      OffFanFollowsTokens(rt, s, parts, i, count);
    } else if i < count - 1 {
      OffFanRunsOut(rt, s, parts, i, count);
    }
  }

  lemma {:induction false} OffFanFollowsTokens(rt: Runtime, s: Session, parts: seq<string>, i: nat, count: int)
    requires 1 <= i <= count - 1 && |parts| > count
    ensures OffFan(rt, s, parts, i, count) == AddOffFaces(rt, s, FanTokens(parts[1..count + 1])[i - 1..])
    decreases count - i
  {
    var fan := FanTokens(parts[1..count + 1]);
    if i < count - 1 {
      var t := TokenTriangle(parts[1], parts[i + 1], parts[i + 2]);
      assert fan[i - 1..][0] == t;
      assert fan[i - 1..][1..] == fan[i..];
      var r1 := AddOffFace(rt, s, t);
      if r1.Ok? {
        OffFanFollowsTokens(rt, r1.value, parts, i + 1, count);
      }
    } else {
      assert fan[i - 1..] == [];
    }
  }

  lemma {:induction false} OffFanRunsOut(rt: Runtime, s: Session, parts: seq<string>, i: nat, count: int)
    requires 1 <= i < count - 1 && |parts| <= count
    ensures OffFan(rt, s, parts, i, count).Err?
    decreases count - i
  {
    if i + 2 < |parts| {
      var r1 := AddOffFace(rt, s, TokenTriangle(parts[1], parts[i + 1], parts[i + 2]));
      if r1.Ok? {
        OffFanRunsOut(rt, r1.value, parts, i + 1, count);
      }
    }
  }

  /** How many polygon corners a face line with vertex count `count` uses: a fan
      over `count` corners when count > 3, otherwise one triangle. */
  function PolygonSize(count: int): int
  {
    if count > 3 then count else 3
  }

  /** One OFF face line: `count i0 i1 ... `. It emits the fan over the first
      PolygonSize(count) index tokens, PolygonSize(count) - 2 triangles; tokens past
      those are ignored and too few tokens fail. */
  function OffFaceLine(rt: Runtime, s: Session, parts: seq<string>): (r: Result<Session>)
    ensures r.Ok? ==> |parts| > 0 && rt.atoi(parts[0]).Some? && |parts| > PolygonSize(rt.atoi(parts[0]).value)
    ensures |parts| > 0 && rt.atoi(parts[0]).Some? && |parts| > PolygonSize(rt.atoi(parts[0]).value) ==>
      r == AddOffFaces(rt, s, FanTokens(parts[1..PolygonSize(rt.atoi(parts[0]).value) + 1]))
  {
    if |parts| == 0 then Err(IndexOutOfRange)
    else
      var count :- StringToInt(rt, parts[0]);
      if count > 3 then
        OffFanIsFan(rt, s, parts, 1, count);
        if |parts| > count then
          assert FanTokens(parts[1..count + 1])[0..] == FanTokens(parts[1..count + 1]);
          OffFan(rt, s, parts, 1, count)
        else OffFan(rt, s, parts, 1, count)
      else if |parts| < 4 then Err(IndexOutOfRange)
      else
        var t := TokenTriangle(parts[1], parts[2], parts[3]);
        assert FanTokens(parts[1..4]) == [t];
        assert AddOffFaces(rt, s, [t]) == AddOffFace(rt, s, t) by {
          var r1 := AddOffFace(rt, s, t);
          if r1.Ok? {
            assert [t][1..] == [];
            assert AddOffFaces(rt, r1.value, []) == Ok(r1.value);
          }
        }
        AddOffFace(rt, s, t)
  }

  /** A successful face line with vertex count k records k - 2 triangles when
      k > 3 and one otherwise, three vertex instances each, and triangle `t` joins
      the first corner with corners t + 2 and t + 3 read from the line's tokens. */
  lemma OffFaceLineEmitsFan(rt: Runtime, s: Session, parts: seq<string>, r: Session)
    requires OffFaceLine(rt, s, parts) == Ok(r)
    ensures |parts| > 0 && rt.atoi(parts[0]).Some? && |parts| > FanSize(rt, parts)
    ensures |r.tempFace| == |s.tempFace| + (FanSize(rt, parts) - 2)
    ensures |r.tempNormal| == |s.tempNormal| + (FanSize(rt, parts) - 2)
    ensures r.vertices == s.vertices + 3 * (FanSize(rt, parts) - 2)
    ensures forall t :: 0 <= t < FanSize(rt, parts) - 2 ==>
      FanFace(rt, parts, t).Some? && r.tempFace[|s.tempFace| + t] == FanFace(rt, parts, t).value
  {
    var n := FanSize(rt, parts);
    var ts := FanTokens(parts[1..n + 1]);
    AddOffFacesData(rt, s, ts);
    var fs := ParsedFaces(rt, s.tempVertex, ts);
    forall t | 0 <= t < n - 2
      ensures FanFace(rt, parts, t).Some? && r.tempFace[|s.tempFace| + t] == FanFace(rt, parts, t).value
    {
      assert ts[t] == TokenTriangle(parts[1], parts[t + 2], parts[t + 3]);
      assert OffTriangleValid(rt, s.tempVertex, ts[t]);
      assert r.tempFace[|s.tempFace| + t] == fs[t];
    }
  }

  /** The number of polygon corners a face line uses, once its count parses. */
  function FanSize(rt: Runtime, parts: seq<string>): int
  {
    if |parts| > 0 && rt.atoi(parts[0]).Some? then PolygonSize(rt.atoi(parts[0]).value) else 3
  }

  /** Fan triangle `t` of a face line, when its three index tokens exist and parse. */
  function FanFace(rt: Runtime, parts: seq<string>, t: int): Option<Face>
  {
    if 0 <= t && t + 3 < |parts| && rt.atoi(parts[1]).Some? && rt.atoi(parts[t + 2]).Some?
       && rt.atoi(parts[t + 3]).Some?
    then Some(Face(rt.atoi(parts[1]).value, rt.atoi(parts[t + 2]).value, rt.atoi(parts[t + 3]).value))
    else None
  }
}
