/** The OFF reader: the header check, then a state machine over the remaining
    lines that first takes the two counts (from the header or from the first
    significant line), then reads `vertexCount` vertex lines, then `faceCount`
    face lines, and ignores everything after. */
module OffReader {
  import opened Results
  import opened Text
  import opened Numbers
  import opened Vectors
  import opened MeshState
  import opened Builder
  import opened Normals

  /** The session with the two counters of the reading loop. Both start at -1,
      meaning "not read yet". */
  datatype OffState = OffState(session: Session, vertexCount: int, faceCount: int)

  /** The counts are still to be read from the next significant line. */
  predicate Counting(st: OffState)
  {
    st.vertexCount < 0 && st.faceCount < 0
  }

  /** Both counters are used up: every further line is ignored. */
  predicate Done(st: OffState)
  {
    !Counting(st) && st.vertexCount <= 0 && st.faceCount <= 0
  }

  /** The header: the first line must start with "OFF"; with more than two
      whitespace-separated fields it also carries the vertex and face counts,
      otherwise both counts are left at -1. */
  function OffHeader(rt: Runtime, first: string): (r: Result<(int, int)>)
    ensures !("OFF" <= first) ==> r == Err(InvalidFormat)
    ensures "OFF" <= first && |Fields(first)| <= 2 ==> r == Ok((-1, -1))
    ensures "OFF" <= first && |Fields(first)| > 2 ==>
      (r.Ok? <==> rt.atoi(Fields(first)[1]).Some? && rt.atoi(Fields(first)[2]).Some?)
    ensures r.Ok? && |Fields(first)| > 2 ==>
      r.value == (rt.atoi(Fields(first)[1]).value, rt.atoi(Fields(first)[2]).value)
  {
    if !("OFF" <= first) then Err(InvalidFormat)
    else
      var parts := Fields(first);
      if |parts| > 2 then
        var v :- StringToInt(rt, parts[1]);
        var f :- StringToInt(rt, parts[2]);
        Ok((v, f))
      else Ok((-1, -1))
  }

  /** One line after the header. */
  function OffStep(rt: Runtime, st: OffState, line: string): (r: Result<OffState>)
    ensures IsBlankOrComment(line) || Done(st) ==> r == Ok(st)
    ensures !IsBlankOrComment(line) && Counting(st) ==>
      var parts := Fields(line);
      && (r.Ok? <==> |parts| >= 2 && rt.atoi(parts[0]).Some? && rt.atoi(parts[1]).Some?)
      && (r.Ok? ==> r.value == OffState(st.session, rt.atoi(parts[0]).value, rt.atoi(parts[1]).value))
    ensures !IsBlankOrComment(line) && !Counting(st) && st.vertexCount > 0 ==>
      var parts := Fields(line);
      && (r.Ok? <==> |parts| >= 3 && StringsToFloats(rt, parts[..3]).Ok?)
      && (r.Ok? ==>
            && r.value.vertexCount == st.vertexCount - 1 && r.value.faceCount == st.faceCount
            && r.value.session
               == st.session.(tempVertex := st.session.tempVertex + [StringsToFloats(rt, parts[..3]).value]))
    ensures !IsBlankOrComment(line) && !Counting(st) && st.vertexCount <= 0 && st.faceCount > 0 ==>
      var face := OffFaceLine(rt, st.session, Fields(line));
      && (r.Ok? <==> face.Ok?)
      && (r.Ok? ==> r.value == OffState(face.value, st.vertexCount, st.faceCount - 1))
  {
    if IsBlankOrComment(line) then Ok(st)
    else
      var parts := Fields(line);
      if Counting(st) then
        if |parts| < 1 then Err(IndexOutOfRange)
        else
          var v :- StringToInt(rt, parts[0]);
          if |parts| < 2 then Err(IndexOutOfRange)
          else
            var f :- StringToInt(rt, parts[1]);
            Ok(OffState(st.session, v, f))
      else if st.vertexCount > 0 then
        if |parts| < 3 then Err(IndexOutOfRange)
        else
          var t :- StringsToFloats(rt, parts[..3]);
          Ok(OffState(st.session.(tempVertex := st.session.tempVertex + [t]), st.vertexCount - 1, st.faceCount))
      else if st.faceCount > 0 then
        var s1 :- OffFaceLine(rt, st.session, parts);
        Ok(OffState(s1, st.vertexCount, st.faceCount - 1))
      else Ok(st)
  }

  /** The reading loop over the lines after the header. Once the counts are
      known they are never read again, and both counters only go down. */
  function OffBody(rt: Runtime, st: OffState, lines: seq<string>): (r: Result<OffState>)
    ensures r.Ok? && !Counting(st) ==>
      && !Counting(r.value)
      && r.value.vertexCount <= st.vertexCount && r.value.faceCount <= st.faceCount
    decreases |lines|
  {
    if |lines| == 0 then Ok(st)
    else
      var st1 :- OffStep(rt, st, lines[0]);
      OffBody(rt, st1, lines[1..])
  }

  /** Reading a + b is reading a, then b from where a stopped. */
  lemma {:induction false} OffBodyAppend(rt: Runtime, st: OffState, a: seq<string>, b: seq<string>)
    ensures OffBody(rt, st, a + b)
         == (if OffBody(rt, st, a).Ok? then OffBody(rt, OffBody(rt, st, a).value, b) else OffBody(rt, st, a))
    decreases |a|
  {
    if |a| == 0 {
      assert a + b == b;
    } else {
      assert (a + b)[0] == a[0];
      assert (a + b)[1..] == a[1..] + b;
      var r1 := OffStep(rt, st, a[0]);
      if r1.Ok? {
        OffBodyAppend(rt, r1.value, a[1..], b);
      }
    }
  }

  /** Once both counters are used up, the rest of the input changes nothing. */
  lemma {:induction false} OffBodyIgnoresAfterDone(rt: Runtime, st: OffState, lines: seq<string>)
    requires Done(st)
    ensures OffBody(rt, st, lines) == Ok(st)
    decreases |lines|
  {
    if |lines| > 0 {
      OffBodyIgnoresAfterDone(rt, st, lines[1..]);
    }
  }

  /** What the loop keeps true on the OFF path: every vertex tuple and face
      normal has three numbers; faces index the vertex table; each face has its
      normal, in step; `vertices` counts three instances per face; `vertex` is the
      flat triangle list of the faces; the OBJ-only arrays are empty; and no face
      is recorded while vertex lines (or the counts) are still expected. */
  ghost predicate OffInvariant(rt: Runtime, st: OffState)
  {
    var s := st.session;
    && Triples(s.tempVertex) && Triples(s.tempNormal)
    && FacesWithin(s.tempFace, |s.tempVertex|)
    && |s.tempNormal| == |s.tempFace|
    && s.vertices == 3 * |s.tempFace|
    && s.vertex == Positions(s.tempVertex, s.tempFace)
    && s.tempNormal == NormalsOf(s.tempVertex, s.tempFace, rt.sqrt)
    && s.vertexNormal == [] && s.textureCoordinate == [] && s.tempTextureCoordinate == []
    && (st.vertexCount > 0 || Counting(st) ==> s.tempFace == [])
  }

  lemma PositionsAppend(table: seq<Tuple>, fs: seq<Face>, gs: seq<Face>)
    requires FacesWithin(fs, |table|) && FacesWithin(gs, |table|)
    ensures FacesWithin(fs + gs, |table|)
    ensures Positions(table, fs + gs) == Positions(table, fs) + Positions(table, gs)
  {
    assert forall k :: 0 <= k < |fs| ==> (fs + gs)[k] == fs[k];
    assert forall k :: |fs| <= k < |fs + gs| ==> (fs + gs)[k] == gs[k - |fs|];
    InstancesAppend(fs, gs);
    InstancesWithin(fs, |table|);
    InstancesWithin(gs, |table|);
    InstancesWithin(fs + gs, |table|);
    GatherConcat(table, Instances(fs), Instances(gs));
    FlattenConcat(Gather(table, Instances(fs)), Gather(table, Instances(gs)));
  }

  /** A face line keeps the invariant. */
  lemma FaceStepKeepsInvariant(rt: Runtime, st: OffState, parts: seq<string>)
    requires OffInvariant(rt, st)
    requires OffFaceLine(rt, st.session, parts).Ok?
    requires !Counting(st) && st.vertexCount <= 0 && st.faceCount > 0
    ensures OffInvariant(rt, OffState(OffFaceLine(rt, st.session, parts).value, st.vertexCount, st.faceCount - 1))
  {
    var s := st.session;
    var count := rt.atoi(parts[0]).value;
    var ts := FanTokens(parts[1..PolygonSize(count) + 1]);
    AddOffFacesData(rt, s, ts);
    FacesAppendedKeepInvariant(rt, st, OffFaceLine(rt, s, parts).value, ParsedFaces(rt, s.tempVertex, ts));
  }

  /** Valid faces appended with their positions and normals keep the invariant. */
  lemma FacesAppendedKeepInvariant(rt: Runtime, st: OffState, s1: Session, fs: seq<Face>)
    requires OffInvariant(rt, st)
    requires !Counting(st) && st.vertexCount <= 0 && st.faceCount > 0
    requires forall k :: 0 <= k < |fs| ==> CornersValid(st.session.tempVertex, fs[k])
    requires FacesWithin(fs, |st.session.tempVertex|)
    requires
      var s, table := st.session, st.session.tempVertex;
      && s1.vertices == s.vertices + 3 * |fs|
      && s1.vertex == s.vertex + Positions(table, fs)
      && s1.tempFace == s.tempFace + fs
      && s1.tempNormal == s.tempNormal + NormalsOf(table, fs, rt.sqrt)
      && OffOnly(s1, s)
    ensures OffInvariant(rt, OffState(s1, st.vertexCount, st.faceCount - 1))
  {
    var s := st.session;
    var table := s.tempVertex;
    assert FacesWithin(fs, |table|);
    PositionsAppend(table, s.tempFace, fs);
    assert forall k :: 0 <= k < |s.tempFace| ==> CornersValid(table, s.tempFace[k]);
    NormalsAppend(table, s.tempFace, fs, rt.sqrt);
  }

  /** A vertex line keeps the invariant: no face exists yet to be disturbed. */
  lemma VertexStepKeepsInvariant(rt: Runtime, st: OffState, t: Tuple)
    requires OffInvariant(rt, st)
    requires !Counting(st) && st.vertexCount > 0 && |t| == 3
    ensures OffInvariant(rt, OffState(st.session.(tempVertex := st.session.tempVertex + [t]),
                                      st.vertexCount - 1, st.faceCount))
  {
    var s := st.session;
    assert s.tempFace == [];
    assert Positions(s.tempVertex + [t], []) == [];
    assert NormalsOf(s.tempVertex + [t], [], rt.sqrt) == [];
  }

  lemma OffStepKeepsInvariant(rt: Runtime, st: OffState, line: string)
    requires OffInvariant(rt, st)
    requires OffStep(rt, st, line).Ok?
    ensures OffInvariant(rt, OffStep(rt, st, line).value)
  {
    if !IsBlankOrComment(line) && !Counting(st) {
      var parts := Fields(line);
      if st.vertexCount > 0 {
        VertexStepKeepsInvariant(rt, st, StringsToFloats(rt, parts[..3]).value);
      } else if st.faceCount > 0 {
        FaceStepKeepsInvariant(rt, st, parts);
      }
    }
  }

  lemma {:induction false} OffBodyKeepsInvariant(rt: Runtime, st: OffState, lines: seq<string>)
    requires OffInvariant(rt, st)
    ensures OffBody(rt, st, lines).Ok? ==> OffInvariant(rt, OffBody(rt, st, lines).value)
    decreases |lines|
  {
    if |lines| > 0 {
      var r1 := OffStep(rt, st, lines[0]);
      if r1.Ok? {
        OffStepKeepsInvariant(rt, st, lines[0]);
        OffBodyKeepsInvariant(rt, r1.value, lines[1..]);
      }
    }
  }

  /** The whole OFF conversion of the input lines. A missing first line reads as
      the empty string, which fails the header check. */
  function OffRead(rt: Runtime, lines: seq<string>, smooth: bool): (r: Result<Session>)
    ensures |lines| == 0 || !("OFF" <= lines[0]) ==> r == Err(InvalidFormat)
    ensures r.Ok? ==> |lines| > 0 && OffHeader(rt, lines[0]).Ok?
    ensures |lines| > 0 && OffHeader(rt, lines[0]).Ok? ==>
      var counts := OffHeader(rt, lines[0]).value;
      (r.Ok? <==> OffBody(rt, OffState(Initial, counts.0, counts.1), lines[1..]).Ok?)
  {
    var first := if |lines| == 0 then "" else lines[0];
    var counts :- OffHeader(rt, first);
    var rest := if |lines| == 0 then [] else lines[1..];
    var st :- OffBody(rt, OffState(Initial, counts.0, counts.1), rest);
    OffBodyNormalsCover(rt, counts.0, counts.1, rest);
    CalculateOffNormals(st.session, smooth, rt.sqrt)
  }

  /** The lockstep invariant pays off: after a successful read of the lines,
      every recorded face has its three-number normal, so the smooth pass
      cannot fail. */
  lemma OffBodyNormalsCover(rt: Runtime, vertexCount: int, faceCount: int, lines: seq<string>)
    requires OffBody(rt, OffState(Initial, vertexCount, faceCount), lines).Ok?
    ensures var s := OffBody(rt, OffState(Initial, vertexCount, faceCount), lines).value.session;
      NormalsCover(s.tempFace, s.tempNormal)
  {
    var st0 := OffState(Initial, vertexCount, faceCount);
    assert Positions([], []) == [];
    assert NormalsOf([], [], rt.sqrt) == [];
    assert OffInvariant(rt, st0);
    OffBodyKeepsInvariant(rt, st0, lines);
  }

  /** A successful OFF conversion is a flat triangle list: `vertex` holds the
      corner tuples of the recorded faces in order, `vertices` is three per face,
      and in either normal mode the normal array holds three numbers per vertex
      instance. */
  lemma OffReadShape(rt: Runtime, lines: seq<string>, smooth: bool)
    ensures |lines| == 0 ==> OffRead(rt, lines, smooth) == Err(InvalidFormat)
    ensures |lines| > 0 && !("OFF" <= lines[0]) ==> OffRead(rt, lines, smooth) == Err(InvalidFormat)
    ensures OffRead(rt, lines, smooth).Ok? ==>
      var s := OffRead(rt, lines, smooth).value;
      && s.vertices == 3 * |s.tempFace|
      && |s.tempNormal| == |s.tempFace|
      && FacesWithin(s.tempFace, |s.tempVertex|)
      && s.vertex == Positions(s.tempVertex, s.tempFace)
      && |s.vertex| == 3 * s.vertices
      && |s.vertexNormal| == 3 * s.vertices
  {
    if |lines| > 0 && "OFF" <= lines[0] {
      var counts := OffHeader(rt, lines[0]);
      if counts.Ok? {
        var st0 := OffState(Initial, counts.value.0, counts.value.1);
        assert Positions([], []) == [];
        assert NormalsOf([], [], rt.sqrt) == [];
        assert OffInvariant(rt, st0);
        OffBodyKeepsInvariant(rt, st0, lines[1..]);
        var body := OffBody(rt, st0, lines[1..]);
        if body.Ok? {
          var s := body.value.session;
          PositionsLength(s.tempVertex, s.tempFace);
          if smooth {
            assert NormalsCover(s.tempFace, s.tempNormal);
          } else {
            FlatNormalsLayout(s.tempNormal);
          }
        }
      }
    }
  }
}
