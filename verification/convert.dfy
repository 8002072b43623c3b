/** The conversion entry point: choose the reader by the input path's extension,
    run it from the empty session, and package the result as a mesh record. */
module Convert {
  import opened Results
  import opened Text
  import opened Numbers
  import opened Index
  import opened MeshState
  import opened ObjReader
  import opened OffReader

  /** The mesh record's vertex count is an unsigned 32-bit field. */
  newtype uint32 = x: int | 0 <= x < 0x1_0000_0000

  /** The counter as the program's uint32 variable holds it: it only ever grows
      by one, so its value is the number of increments modulo 2^32. */
  function Wrap(n: nat): (r: uint32)
    ensures n < 0x1_0000_0000 ==> r as int == n
    ensures (r as int - n) % 0x1_0000_0000 == 0
  {
    (n % 0x1_0000_0000) as uint32
  }

  /** The output record: name, vertex count, and the flat position, normal and
      texture-coordinate arrays. */
  datatype Mesh = Mesh(name: string, vertices: uint32, vertex: seq<real>, normal: seq<real>, texCoord: seq<real>)

  function MeshOf(name: string, s: Session): (m: Mesh)
    ensures m.vertex == s.vertex && m.normal == s.vertexNormal && m.texCoord == s.textureCoordinate
    ensures m.vertices == Wrap(s.vertices)
  {
    Mesh(name, Wrap(s.vertices), s.vertex, s.vertexNormal, s.textureCoordinate)
  }

  /** Converts the lines of the file at `path`: ".obj" is checked first, then
      ".off"; any other extension is refused. */
  function ConvertMesh(name: string, path: string, lines: seq<string>, rt: Runtime, smooth: bool,
                       policy: IndexPolicy): (r: Result<Mesh>)
    ensures !HasSuffix(path, ".obj") && !HasSuffix(path, ".off") ==> r == Err(UnsupportedFormat)
    ensures HasSuffix(path, ".obj") ==>
      && (r.Ok? <==> ObjRead(rt, policy, Initial, lines).Ok?)
      && (r.Ok? ==> r.value == MeshOf(name, ObjRead(rt, policy, Initial, lines).value))
    ensures !HasSuffix(path, ".obj") && HasSuffix(path, ".off") ==>
      && (r.Ok? <==> OffRead(rt, lines, smooth).Ok?)
      && (r.Ok? ==> r.value == MeshOf(name, OffRead(rt, lines, smooth).value))
  {
    if HasSuffix(path, ".obj") then
      var s :- ObjRead(rt, policy, Initial, lines);
      Ok(MeshOf(name, s))
    else if HasSuffix(path, ".off") then
      var s :- OffRead(rt, lines, smooth);
      Ok(MeshOf(name, s))
    else Err(UnsupportedFormat)
  }

  /** Every successful conversion holds three position numbers per vertex
      instance the session counted, and the mesh's count is that number modulo
      2^32, so it equals the instance count exactly while that fits in 32 bits.
      An OFF conversion also holds three normal numbers per instance, and its
      instance count is a multiple of three. */
  lemma ConvertShape(name: string, path: string, lines: seq<string>, rt: Runtime, smooth: bool,
                     policy: IndexPolicy)
    requires ConvertMesh(name, path, lines, rt, smooth, policy).Ok?
    ensures
      var s := if HasSuffix(path, ".obj") then ObjRead(rt, policy, Initial, lines).value
               else OffRead(rt, lines, smooth).value;
      var m := ConvertMesh(name, path, lines, rt, smooth, policy).value;
      && |m.vertex| == 3 * s.vertices
      && m.vertices == Wrap(s.vertices)
      && (s.vertices < 0x1_0000_0000 ==> |m.vertex| == 3 * m.vertices as int)
      && (!HasSuffix(path, ".obj") ==> |m.normal| == |m.vertex| && s.vertices % 3 == 0)
  {
    if HasSuffix(path, ".obj") {
      assert ObjInvariant(Initial);
      ObjReadKeepsInvariant(rt, policy, Initial, lines);
    } else {
      OffReadShape(rt, lines, smooth);
    }
  }
}
