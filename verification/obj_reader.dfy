/** The OBJ reader: per line, skip blanks and comments, split on single spaces and
    dispatch on the keyword. `v`, `vn` and `vt` declare table entries; `f` emits a
    triangle (or a quad as two triangles); `l` emits a line segment; anything else
    is ignored. */
module ObjReader {
  import opened Results
  import opened Text
  import opened Numbers
  import opened Index
  import opened MeshState
  import opened Builder

  /** The three numbers after the keyword: parts[1..4] parsed, which needs the
      keyword and at least three more parts. */
  function ReadTuple(rt: Runtime, parts: seq<string>): (r: Result<Tuple>)
    ensures r.Ok? <==> |parts| >= 4 && forall i :: 1 <= i < 4 ==> rt.parseFloat(parts[i]).Some?
    ensures r.Ok? ==> |r.value| == 3
    ensures r.Ok? ==> forall c :: 0 <= c < 3 ==> r.value[c] == rt.parseFloat(parts[c + 1]).value
    ensures r.Err? ==> (r.error == IndexOutOfRange <==> |parts| < 4)
  {
    if |parts| < 4 then Err(IndexOutOfRange)
    else
      assert forall i :: 1 <= i < 4 ==> parts[i] == parts[1..4][i - 1];
      StringsToFloats(rt, parts[1..4])
  }

  /** One non-blank, non-comment record, already split on ' '. */
  function ObjRecord(rt: Runtime, policy: IndexPolicy, s: Session, parts: seq<string>): (r: Result<Session>)
    requires |parts| >= 1
    ensures parts[0] !in {"v", "vn", "vt", "f", "l"} ==> r == Ok(s)
    ensures parts[0] in {"v", "vn", "vt"} ==> (r.Ok? <==> ReadTuple(rt, parts).Ok?)
    ensures parts[0] == "v" && r.Ok? ==>
      ReadTuple(rt, parts).Ok? && r.value == s.(tempVertex := s.tempVertex + [ReadTuple(rt, parts).value])
    ensures parts[0] == "vn" && r.Ok? ==>
      ReadTuple(rt, parts).Ok? && r.value == s.(tempNormal := s.tempNormal + [ReadTuple(rt, parts).value])
    ensures parts[0] == "vt" && r.Ok? ==>
      && ReadTuple(rt, parts).Ok?
      && r.value == s.(tempTextureCoordinate := s.tempTextureCoordinate + [ReadTuple(rt, parts).value])
    ensures parts[0] == "l" ==> (r.Ok? <==> |parts| >= 3 && AddObjLine(rt, policy, s, parts[1], parts[2]).Ok?)
    ensures parts[0] == "l" && |parts| >= 3 ==> r == AddObjLine(rt, policy, s, parts[1], parts[2])
    ensures parts[0] == "f" && |parts| < 4 ==> r == Err(IndexOutOfRange)
  {
    match parts[0]
    case "v" =>
      var t :- ReadTuple(rt, parts);
      Ok(s.(tempVertex := s.tempVertex + [t]))
    case "vn" =>
      var t :- ReadTuple(rt, parts);
      Ok(s.(tempNormal := s.tempNormal + [t]))
    case "vt" =>
      var t :- ReadTuple(rt, parts);
      Ok(s.(tempTextureCoordinate := s.tempTextureCoordinate + [t]))
    case "f" =>
      if |parts| > 4 then
        var s1 :- AddObjFace(rt, policy, s, parts[1], parts[2], parts[3]);
        AddObjFace(rt, policy, s1, parts[3], parts[4], parts[1])
      else if |parts| < 4 then Err(IndexOutOfRange)
      else AddObjFace(rt, policy, s, parts[1], parts[2], parts[3])
    case "l" =>
      if |parts| < 3 then Err(IndexOutOfRange)
      else AddObjLine(rt, policy, s, parts[1], parts[2])
    case _ => Ok(s)
  }

  /** One input line: blanks and `#` comments change nothing, and every other
      record only appends to the arrays and tables. */
  function ObjLine(rt: Runtime, policy: IndexPolicy, s: Session, line: string): (r: Result<Session>)
    ensures r.Ok? ==> Grows(s, r.value)
  {
    if IsBlankOrComment(line) then Ok(s)
    else
      var parts := Split(line, ' ');
      var r := ObjRecord(rt, policy, s, parts);
      if r.Ok? then ObjRecordGrows(rt, policy, s, parts); r else r
  }

  /** The reader loop: every line in order; the first failure ends the conversion.
      The reader only ever appends: what it has output or declared stays in
      place, and the counter never goes down. */
  function ObjRead(rt: Runtime, policy: IndexPolicy, s: Session, lines: seq<string>): (r: Result<Session>)
    ensures r.Ok? ==> Grows(s, r.value)
    decreases |lines|
  {
    if |lines| == 0 then Ok(s)
    else
      var s1 :- ObjLine(rt, policy, s, lines[0]);
      ObjRead(rt, policy, s1, lines[1..])
  }

  /** t extends s: every output array and declaration table of s is a prefix of
      t's, the counter has not decreased, and the OFF face list is untouched. */
  predicate Grows(s: Session, t: Session)
  {
    && s.vertices <= t.vertices
    && s.vertex <= t.vertex && s.vertexNormal <= t.vertexNormal
    && s.textureCoordinate <= t.textureCoordinate
    && s.tempVertex <= t.tempVertex && s.tempNormal <= t.tempNormal
    && s.tempTextureCoordinate <= t.tempTextureCoordinate
    && s.tempFace == t.tempFace
  }

  /** A single record only appends; a quad does so twice. */
  lemma ObjRecordGrows(rt: Runtime, policy: IndexPolicy, s: Session, parts: seq<string>)
    requires |parts| >= 1
    requires ObjRecord(rt, policy, s, parts).Ok?
    ensures Grows(s, ObjRecord(rt, policy, s, parts).value)
  {
    if parts[0] == "f" && |parts| > 4 {
      var s1 := AddObjFace(rt, policy, s, parts[1], parts[2], parts[3]).value;
      assert Grows(s, s1);
      assert Grows(s1, AddObjFace(rt, policy, s1, parts[3], parts[4], parts[1]).value);
    }
  }

  /** Blank lines and comments can be removed from anywhere in the input
      without changing the outcome of the whole read. */
  lemma {:induction false} ObjReadSkipsBlank(rt: Runtime, policy: IndexPolicy, s: Session,
                                             a: seq<string>, b: seq<string>, line: string)
    requires IsBlankOrComment(line)
    ensures ObjRead(rt, policy, s, a + [line] + b) == ObjRead(rt, policy, s, a + b)
    decreases |a|
  {
    if |a| == 0 {
      assert a + [line] + b == [line] + b;
      assert ([line] + b)[1..] == b;
      assert a + b == b;
    } else {
      assert (a + [line] + b)[0] == a[0] && (a + b)[0] == a[0];
      assert (a + [line] + b)[1..] == a[1..] + [line] + b;
      assert (a + b)[1..] == a[1..] + b;
      var r1 := ObjLine(rt, policy, s, a[0]);
      if r1.Ok? {
        ObjReadSkipsBlank(rt, policy, r1.value, a[1..], b, line);
      }
    }
  }

  /** A triangle record emits its three references as one face. */
  lemma ObjTriangle(rt: Runtime, policy: IndexPolicy, s: Session, parts: seq<string>)
    requires |parts| == 4 && parts[0] == "f"
    ensures ObjRecord(rt, policy, s, parts) == AddObjFace(rt, policy, s, parts[1], parts[2], parts[3])
  {
  }

  /** A record with four or more references is the quad (p1, p2, p3, p4); it
      succeeds exactly when the four references resolve. */
  lemma ObjQuadSucceeds(rt: Runtime, policy: IndexPolicy, s: Session, parts: seq<string>)
    requires |parts| > 4 && parts[0] == "f"
    ensures ObjRecord(rt, policy, s, parts).Ok? <==> forall i :: 1 <= i <= 4 ==> Resolves(rt, policy, s, parts[i])
  {
    var r1 := AddObjFace(rt, policy, s, parts[1], parts[2], parts[3]);
    if r1.Ok? {
      var s1 := r1.value;
      SameTablesResolve(s1, s, rt, policy, parts[3]);
      SameTablesResolve(s1, s, rt, policy, parts[4]);
      SameTablesResolve(s1, s, rt, policy, parts[1]);
    }
  }

  /** A successful quad emits triangle (p1, p2, p3) and then (p3, p4, p1): six
      vertex instances, positions in that order, the tables unchanged. */
  lemma ObjQuadIsTwoTriangles(rt: Runtime, policy: IndexPolicy, s: Session, parts: seq<string>, r: Session)
    requires |parts| > 4 && parts[0] == "f"
    requires ObjRecord(rt, policy, s, parts) == Ok(r)
    ensures forall i :: 1 <= i <= 4 ==> Resolves(rt, policy, s, parts[i])
    ensures r.vertices == s.vertices + 6
    ensures r.vertex == s.vertex + PositionOf(rt, policy, s, parts[1]) + PositionOf(rt, policy, s, parts[2])
                                 + PositionOf(rt, policy, s, parts[3]) + PositionOf(rt, policy, s, parts[3])
                                 + PositionOf(rt, policy, s, parts[4]) + PositionOf(rt, policy, s, parts[1])
    ensures r.textureCoordinate == s.textureCoordinate
      + TexCoordData(Emissions(rt, policy, s, [parts[1], parts[2], parts[3]]))
      + TexCoordData(Emissions(rt, policy, s, [parts[3], parts[4], parts[1]]))
    ensures r.vertexNormal == s.vertexNormal
      + NormalData(Emissions(rt, policy, s, [parts[1], parts[2], parts[3]]))
      + NormalData(Emissions(rt, policy, s, [parts[3], parts[4], parts[1]]))
    ensures SameTables(r, s)
  {
    ObjQuadSucceeds(rt, policy, s, parts);
    var s1 := AddObjFace(rt, policy, s, parts[1], parts[2], parts[3]).value;
    SameTablesResolve(s1, s, rt, policy, parts[3]);
    SameTablesResolve(s1, s, rt, policy, parts[4]);
    SameTablesResolve(s1, s, rt, policy, parts[1]);
    SameTablesEmissions(s, s1, rt, policy, [parts[3], parts[4], parts[1]]);
  }

  /** References past the fourth never matter. */
  lemma ObjExtraReferencesIgnored(rt: Runtime, policy: IndexPolicy, s: Session, parts: seq<string>)
    requires |parts| > 5 && parts[0] == "f"
    ensures ObjRecord(rt, policy, s, parts) == ObjRecord(rt, policy, s, parts[..5])
  {
  }

  /** The record-level invariant of the OBJ path: every declared tuple has three
      numbers, `vertex` holds three numbers per counted instance, texture
      coordinates and normals are whole triples and never outnumber positions,
      and no OFF face is recorded. */
  predicate ObjInvariant(s: Session)
  {
    && Triples(s.tempVertex) && Triples(s.tempNormal) && Triples(s.tempTextureCoordinate)
    && |s.vertex| == 3 * s.vertices
    && |s.textureCoordinate| % 3 == 0 && |s.textureCoordinate| <= |s.vertex|
    && |s.vertexNormal| % 3 == 0 && |s.vertexNormal| <= |s.vertex|
    && s.tempFace == []
  }

  /** Every part of every emission is a triple. */
  predicate WellSized(es: seq<Emission>)
  {
    forall k :: 0 <= k < |es| ==>
      && |es[k].position| == 3
      && (es[k].texCoord.Some? ==> |es[k].texCoord.value| == 3)
      && (es[k].normal.Some? ==> |es[k].normal.value| == 3)
  }

  lemma {:induction false} EmissionDataSizes(es: seq<Emission>)
    requires WellSized(es)
    ensures |PositionData(es)| == 3 * |es|
    ensures |TexCoordData(es)| % 3 == 0 && |TexCoordData(es)| <= 3 * |es|
    ensures |NormalData(es)| % 3 == 0 && |NormalData(es)| <= 3 * |es|
    decreases |es|
  {
    if |es| > 0 {
      assert WellSized(es[1..]) by {
        assert forall k :: 0 <= k < |es| - 1 ==> es[1..][k] == es[k + 1];
      }
      EmissionDataSizes(es[1..]);
    }
  }

  /** Resolved references of a session with triple tables are triples. */
  lemma EmissionsWellSized(rt: Runtime, policy: IndexPolicy, s: Session, refs: seq<string>)
    requires Triples(s.tempVertex) && Triples(s.tempNormal) && Triples(s.tempTextureCoordinate)
    requires forall k :: 0 <= k < |refs| ==> Resolves(rt, policy, s, refs[k])
    ensures WellSized(Emissions(rt, policy, s, refs))
  {
    var es := Emissions(rt, policy, s, refs);
    forall k | 0 <= k < |es|
      ensures |es[k].position| == 3
      ensures es[k].texCoord.Some? ==> |es[k].texCoord.value| == 3
      ensures es[k].normal.Some? ==> |es[k].normal.value| == 3
    {
      var e := es[k];
      assert Resolves(rt, policy, s, refs[k]);
      assert e.position in s.tempVertex;
      if e.texCoord.Some? {
        assert e.texCoord.value in s.tempTextureCoordinate;
      }
      if e.normal.Some? {
        assert e.normal.value in s.tempNormal;
      }
    }
  }

  lemma AddObjFaceKeepsInvariant(rt: Runtime, policy: IndexPolicy, s: Session, a: string, b: string, c: string)
    requires ObjInvariant(s)
    requires AddObjFace(rt, policy, s, a, b, c).Ok?
    ensures ObjInvariant(AddObjFace(rt, policy, s, a, b, c).value)
  {
    var refs := [a, b, c];
    assert AddObjFace(rt, policy, s, a, b, c) == AddObjRefs(rt, policy, s, refs);
    AddObjRefsData(rt, policy, s, refs);
    EmissionsWellSized(rt, policy, s, refs);
    EmittedKeepInvariant(s, AddObjRefs(rt, policy, s, refs).value, Emissions(rt, policy, s, refs));
  }

  /** Appending whole-triple emissions keeps the invariant. */
  lemma EmittedKeepInvariant(s: Session, r: Session, es: seq<Emission>)
    requires ObjInvariant(s) && WellSized(es) && SameTables(r, s)
    requires r.vertices == s.vertices + |es|
    requires r.vertex == s.vertex + PositionData(es)
    requires r.textureCoordinate == s.textureCoordinate + TexCoordData(es)
    requires r.vertexNormal == s.vertexNormal + NormalData(es)
    ensures ObjInvariant(r)
  {
    EmissionDataSizes(es);
    WholeTriples(s.textureCoordinate, TexCoordData(es));
    WholeTriples(s.vertexNormal, NormalData(es));
  }

  /** Two runs of whole triples make whole triples. */
  lemma WholeTriples(xs: seq<real>, ys: seq<real>)
    requires |xs| % 3 == 0 && |ys| % 3 == 0
    ensures |xs + ys| % 3 == 0
  {
    assert |xs + ys| == 3 * (|xs| / 3 + |ys| / 3);
  }

  lemma AddObjLineKeepsInvariant(rt: Runtime, policy: IndexPolicy, s: Session, a: string, b: string)
    requires ObjInvariant(s)
    requires AddObjLine(rt, policy, s, a, b).Ok?
    ensures ObjInvariant(AddObjLine(rt, policy, s, a, b).value)
  {
    assert ObjLookup(rt, policy, s.tempVertex, a).value in s.tempVertex;
    assert ObjLookup(rt, policy, s.tempVertex, b).value in s.tempVertex;
  }

  lemma ObjRecordKeepsInvariant(rt: Runtime, policy: IndexPolicy, s: Session, parts: seq<string>)
    requires |parts| >= 1
    requires ObjInvariant(s)
    requires ObjRecord(rt, policy, s, parts).Ok?
    ensures ObjInvariant(ObjRecord(rt, policy, s, parts).value)
  {
    if parts[0] == "f" {
      if |parts| > 4 {
        AddObjFaceKeepsInvariant(rt, policy, s, parts[1], parts[2], parts[3]);
        var s1 := AddObjFace(rt, policy, s, parts[1], parts[2], parts[3]).value;
        AddObjFaceKeepsInvariant(rt, policy, s1, parts[3], parts[4], parts[1]);
      } else {
        AddObjFaceKeepsInvariant(rt, policy, s, parts[1], parts[2], parts[3]);
      }
    } else if parts[0] == "l" {
      AddObjLineKeepsInvariant(rt, policy, s, parts[1], parts[2]);
    }
  }

  /** Reading any OBJ lines from a state satisfying the invariant keeps it; in
      particular positions hold exactly three numbers per vertex instance, while
      texture coordinates and normals may be fewer. */
  lemma {:induction false} ObjReadKeepsInvariant(rt: Runtime, policy: IndexPolicy, s: Session, lines: seq<string>)
    requires ObjInvariant(s)
    ensures ObjRead(rt, policy, s, lines).Ok? ==> ObjInvariant(ObjRead(rt, policy, s, lines).value)
    decreases |lines|
  {
    if |lines| > 0 {
      var r1 := ObjLine(rt, policy, s, lines[0]);
      if r1.Ok? {
        if !IsBlankOrComment(lines[0]) {
          ObjRecordKeepsInvariant(rt, policy, s, Split(lines[0], ' '));
        }
        ObjReadKeepsInvariant(rt, policy, r1.value, lines[1..]);
      }
    }
  }

  /** A reference without '/' names a position only. */
  lemma PlainReference(rt: Runtime, policy: IndexPolicy, s: Session, ref: string)
    requires '/' !in ref
    requires Resolves(rt, policy, s, ref)
    ensures ResolveReference(rt, policy, s.tempVertex, s.tempTextureCoordinate, s.tempNormal, ref).value.texCoord.None?
    ensures ResolveReference(rt, policy, s.tempVertex, s.tempTextureCoordinate, s.tempNormal, ref).value.normal.None?
  {
    NoOccurrences(ref, '/');
  }

  lemma {:induction false} NoOccurrences(s: string, c: char)
    requires c !in s
    ensures Occurrences(s, c) == 0
    decreases |s|
  {
    if |s| > 0 {
      assert c !in s[1..] by {
        assert forall i :: 0 <= i < |s| - 1 ==> s[1..][i] == s[i + 1];
      }
      NoOccurrences(s[1..], c);
    }
  }

  /** A face of plain position references (`f 1 2 3`) appends positions only:
      texture coordinates and normals stay as they were. */
  lemma PlainFaceAddsPositionsOnly(rt: Runtime, policy: IndexPolicy, s: Session, a: string, b: string, c: string)
    requires '/' !in a && '/' !in b && '/' !in c
    requires AddObjFace(rt, policy, s, a, b, c).Ok?
    ensures AddObjFace(rt, policy, s, a, b, c).value.textureCoordinate == s.textureCoordinate
    ensures AddObjFace(rt, policy, s, a, b, c).value.vertexNormal == s.vertexNormal
  {
    PlainReference(rt, policy, s, a);
    PlainReference(rt, policy, s, b);
    PlainReference(rt, policy, s, c);
    var es := Emissions(rt, policy, s, [a, b, c]);
    assert es[0].texCoord.None? && es[1].texCoord.None? && es[2].texCoord.None?;
    assert es[0].normal.None? && es[1].normal.None? && es[2].normal.None?;
    NoOptionalData(es);
  }

  /** Emissions without texture coordinates or normals contribute no such data. */
  lemma {:induction false} NoOptionalData(es: seq<Emission>)
    requires forall k :: 0 <= k < |es| ==> es[k].texCoord.None? && es[k].normal.None?
    ensures TexCoordData(es) == [] && NormalData(es) == []
    decreases |es|
  {
    if |es| > 0 {
      assert forall k :: 0 <= k < |es[1..]| ==> es[1..][k] == es[k + 1];
      NoOptionalData(es[1..]);
    }
  }
}
