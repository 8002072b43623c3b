# joymesh in Dafny

joymesh converts a Wavefront `.obj` file or an `.off` (Object File Format) file into a
mesh record. The record holds a name, a vertex-instance count and three flat `float64`
arrays: positions, normals and texture coordinates. This project models the converter's
core, which lives in `joymesh.go`, and proves properties of the model:

- the OBJ record dispatch (`v`, `vn`, `vt`, `f`, `l`);
- the OFF header check and its line-by-line state machine;
- `addObjLine`, `addObjFace` and `addOffFace`;
- the two triangulations: the OBJ quad becomes (a, b, c), (c, d, a), and the OFF
  polygon becomes a fan around its first corner;
- `calculateOffNormals` in flat and smooth mode;
- OBJ index resolution (`objIndexToArrayIndex`);
- the number parsing helpers.

The program keeps its state in package-level variables. Here they become one immutable
`MeshState.Session` record, which every operation takes and returns. Each Go `log.Fatal`
and each run-time panic (a slice or index out of range) becomes an `Err` of
`Results.Result`. The first failure ends a conversion, as the program's exit does.

Modules, one per file:

| module | file | contents |
|---|---|---|
| `Results` | results.dfy | `Option`, `Result` and the error kinds |
| `Text` | text.dfy | `strings.Split`, `strings.Fields`, `HasPrefix`/`HasSuffix`; split/join round trips |
| `Numbers` | numbers.dfy | `stringToInt`, `stringsToFloats` over the `Runtime` parsers |
| `Index` | index.dfy | OBJ index resolution as written and as documented |
| `Vectors` | vectors.dfy | 3-vectors, cross product, normalisation |
| `MeshState` | mesh_state.dfy | the session record; flat triangle lists (`Instances`, `Positions`) |
| `Builder` | builder.dfy | `addObjLine`, `addObjFace`, `addOffFace`, the OFF fan |
| `Normals` | normals.dfy | `calculateOffNormals`, with a reference definition of smooth normals |
| `ObjReader` | obj_reader.dfy | the OBJ line dispatch and its record invariant |
| `OffReader` | off_reader.dfy | the OFF header and state machine, and its invariant |
| `Convert` | convert.dfy | choosing the reader by extension; the mesh record with its `uint32` count |

The library calls `strconv.Atoi`, `strconv.ParseFloat` and `math.Sqrt` are fields of
`Numbers.Runtime`. They are total functions supplied by the caller, so every property
holds for every parser and every square root, except where a member requires an exact
square root (`Vectors.SqrtExact`): `Vectors.NormalizeIsUnit`, `Vectors.NormalizeIdempotent`,
`Normals.SmoothPassNormalizesOnce`, `Normals.SmoothNormalsAreReference` and
`Normals.SmoothSharedVertex`.

Where the code and its documentation differ, the model follows the code:

- The OFF header is the literal first line of the file. A blank line or a comment before
  it makes the file invalid.
- A `vt` record needs all three numbers, because `parts[1:4]` panics on a shorter record.
- OBJ records are split on single spaces, so doubled spaces produce empty fields. OFF
  lines are split on runs of white space.
- A negative OBJ index resolves past the end of its table; see Findings.

## Model

| member | source | states |
|---|---|---|
| Numbers.StringToInt | joymesh.go:278-284 | succeeds exactly when the token parses as an integer, and then yields that integer; otherwise the error is a malformed number |
| Numbers.StringsToFloats | joymesh.go:294-301 | succeeds exactly when every token parses; the result has one number per token, in order, each the parse of its token |
| Index.ObjIndexToArrayIndex | joymesh.go:303-310 | a non-negative OBJ index k names array slot k-1; a negative index lands past the end; the slot is inside a table of n entries exactly when 1 <= k <= n |
| Index.MinusOneIsPastTheEnd | joymesh.go:303-307 | as written, -1 on a non-empty table of n entries resolves to n+1 and the lookup fails, where the comment promises the last element |
| Index.ObjIndexConventional | joymesh.go:304-309 | the documented convention: negative indices count back from the end, so the slot is in range exactly for 1..n and -n..-1 |
| Index.ConventionalCountsFromTheEnd | joymesh.go:305 | under the documented convention, -k names entry n-k, and -1 names the last entry |
| Index.Lookup | joymesh.go:174 | a table access succeeds exactly for an index in range and yields that entry; out of range it is the panic |
| Text.Split | joymesh.go:65 | `strings.Split` yields one more piece than the separator occurs, and no piece contains the separator |
| Text.JoinSplit | joymesh.go:65 | joining the pieces of `strings.Split` with the separator gives back the line |
| Text.SplitJoin | joymesh.go:181 | splitting a join of separator-free pieces gives back the pieces |
| Text.Fields | joymesh.go:95 | every piece `strings.Fields` returns is a non-empty run of non-space characters |
| Text.FieldsSkipSpaces | joymesh.go:95 | leading white space contributes no field: `strings.Fields` of spaces followed by t is the fields of t |
| Text.FieldsWord | joymesh.go:107 | a word followed by white space (or by nothing) is the first field, and the fields of the rest follow |
| Text.FieldsJoin | joymesh.go:107 | `strings.Fields` of words joined by single spaces gives back the words |
| Builder.ObjLookup | joymesh.go:173-174 | a reference token resolves exactly when it parses and names an in-range slot; a positive k gives entry k-1, a negative one the entry the policy names |
| Builder.OptionalLookup | joymesh.go:185-192 | an absent or empty texture/normal field adds nothing and cannot fail; a present one succeeds exactly when its lookup does |
| Builder.ResolveReference | joymesh.go:181-192 | a `v/vt/vn` reference succeeds exactly when its position and each present field resolve; the texture coordinate or normal is produced exactly when its field is present and non-empty; the position, texture coordinate and normal are the entries of their own tables that their indices name |
| Builder.AddObjRefs | joymesh.go:180-193 | the loop over a face's references succeeds exactly when every reference resolves against the tables as they stand, since emitting never changes the tables |
| Builder.AddObjRefsData | joymesh.go:180-193 | after the references of a face, the counter has grown by their number and the three output arrays have grown by their positions, texture coordinates and normals, in reference order; the tables are unchanged |
| Builder.AddObjFace | joymesh.go:179-194 | succeeds exactly when all three references resolve; it then adds 3 vertex instances, appends the three positions in reference order, appends texture coordinates and normals only for references that carry them, and leaves the tables unchanged |
| Builder.AddObjLine | joymesh.go:171-177 | succeeds exactly when both endpoints resolve; it then adds 2 vertex instances and appends the two positions in order, and nothing else changes |
| Builder.ToVec3 | joymesh.go:207-216 | a corner tuple with at least three numbers gives a vector of its first three numbers; a shorter tuple is the panic |
| Builder.AddOffFace | joymesh.go:196-234 | succeeds exactly when the three tokens parse to raw indices of vertex tuples with at least three numbers; it then adds 3 instances, appends the corner tuples, and records the face and its normal together |
| Builder.AddOffFaces | joymesh.go:119-124 | repeated `addOffFace` calls succeed exactly when every triangle's tokens parse to corners of the vertex table with three numbers each |
| Builder.AddOffFacesData | joymesh.go:119-124 | after a run of OFF triangles, the counter has grown by 3 per triangle, the positions by those of the parsed faces, and the face and normal lists by the same faces and their normals; nothing else changes |
| Builder.FanTokens | joymesh.go:119-121 | a fan over k index tokens has k-2 triangles, and triangle j is (first, j+1, j+2) |
| Builder.OffFan | joymesh.go:119-121 | from pass i on, a successful polygon loop appends max(count-1-i, 0) faces, normals and triples of instances, and the face of pass i joins token 1 with tokens i+1 and i+2; what was recorded before stays in place |
| Builder.OffFanIsFan | joymesh.go:119-121 | the polygon loop is the fan: with enough tokens it emits exactly the fan triangles in order; with too few it fails |
| Builder.OffFaceLine | joymesh.go:116-125 | a face line succeeds only when its count parses and enough tokens follow; it then emits the fan over the first max(count, 3) corners, and later tokens are ignored |
| Builder.OffFaceLineEmitsFan | joymesh.go:116-125 | a face line of count k emits k-2 triangles when k > 3 and one otherwise, three instances each, and triangle t joins the first corner with corners t+2 and t+3 |
| Vectors.CrossOrthogonal | joymesh.go:218-220 | the cross product is orthogonal to both of its arguments |
| Vectors.FaceNormalOrthogonal | joymesh.go:207-220 | the unnormalised face normal is orthogonal to both edges from the first corner |
| Vectors.Normalize | joymesh.go:222-227 | a zero vector is left as the zero vector |
| Vectors.NormalizeIsUnit | joymesh.go:222-227 | with a positive exact length, normalising divides by the length and gives a unit vector |
| Vectors.NormalizeIdempotent | joymesh.go:259-264 | with an exact square root, normalising an already normalised vector changes nothing |
| Vectors.DegenerateFaceNormal | joymesh.go:222-227 | a degenerate face (all corners equal) gets the zero normal |
| Normals.Triplicate | joymesh.go:269-274 | each face normal is repeated three times, once for each corner, in face order |
| Normals.FlatNormalsLayout | joymesh.go:269-274 | flat normals hold nine numbers per face, and instance v carries the normal of face v/3 |
| Normals.Accumulate | joymesh.go:239-253 | the first smooth loop creates a map entry for exactly the vertices that are a corner of some face |
| Normals.AccumulateIsIncidentSum | joymesh.go:239-253 | after the first smooth loop, the map holds exactly the vertices some face uses, and each entry is the sum of the normals of the faces that use that vertex, once per use |
| Normals.SmoothPass | joymesh.go:255-267 | the second smooth loop appends three numbers per instance, and the first instance of each vertex gets that vertex's accumulated sum normalised, for any square root |
| Normals.SmoothPassNormalizesOnce | joymesh.go:255-267 | the second smooth loop normalises the shared map entries in place, and with an exact square root it still appends the normalised sum for every instance |
| Normals.FlatNormalsAppended | joymesh.go:268-275 | flat mode cannot fail; it appends each recorded face normal three times, in face order, and changes nothing else |
| Normals.CalculateOffNormals | joymesh.go:236-276 | flat mode cannot fail; smooth mode fails (the `tempNormal[f]` panic or a short normal) exactly when some face lacks a three-number normal, and otherwise appends nine numbers per face; only the normal array changes, and only by appending |
| Normals.SmoothNormalsAreReference | joymesh.go:236-267 | with an exact square root, smooth mode appends, per vertex instance, the normalised sum of the normals of the faces around its vertex, and changes nothing else |
| Normals.SmoothSharedVertex | joymesh.go:236-267 | with an exact square root, smooth mode succeeds when every face has its normal, and gives two instances of the same vertex the same three normal numbers |
| ObjReader.ReadTuple | joymesh.go:68-72 | a `v`/`vn`/`vt` record yields its three numbers when it has three parseable fields; a shorter record is the slice panic |
| ObjReader.ObjRecord | joymesh.go:66-86 | `v`, `vn` and `vt` append one tuple to their own table and nothing else; `l` with two or more endpoints is `addObjLine` on the first two, and further endpoints are ignored; `l` with fewer is the panic; `f` with fewer than three references is the panic; unknown records change nothing |
| ObjReader.ObjLine | joymesh.go:60-86 | a single line only appends: every array and table of the state before it is a prefix of the state after it, the counter never decreases and the OFF face list is untouched |
| ObjReader.ObjRead | joymesh.go:58-87 | the OBJ reader only appends: the output arrays and the three tables of the starting state stay prefixes, the counter never decreases and the OFF face list is untouched |
| ObjReader.ObjReadSkipsBlank | joymesh.go:59-63 | removing a blank line or a `#` comment from anywhere in the input does not change the outcome of the read |
| ObjReader.ObjTriangle | joymesh.go:78-81 | a record with exactly three references is one face |
| ObjReader.ObjQuadSucceeds | joymesh.go:74-77 | a record with four or more references succeeds exactly when its first four references resolve |
| ObjReader.ObjQuadIsTwoTriangles | joymesh.go:74-77 | a successful quad emits six instances: the positions, texture coordinates and normals of (a, b, c) and then of (c, d, a), each resolved against the unchanged tables |
| ObjReader.ObjExtraReferencesIgnored | joymesh.go:74-77 | references after the fourth never change the result |
| ObjReader.PlainFaceAddsPositionsOnly | joymesh.go:185-192 | a face of bare position indices appends no texture coordinates and no normals |
| ObjReader.ObjReadKeepsInvariant | joymesh.go:58-87 | the OBJ reader keeps three position numbers per instance; texture coordinates and normals stay whole triples and never outnumber positions |
| OffReader.OffHeader | joymesh.go:89-101 | the first line must start with "OFF"; with more than two fields it carries both counts, which must parse; otherwise both counts stay -1 |
| OffReader.OffStep | joymesh.go:103-130 | blank and comment lines and lines after both counts are used up change nothing; while both counts are negative, the next significant line sets both; then vertex lines add a tuple and consume the vertex count, and face lines emit a fan and consume the face count |
| OffReader.OffBody | joymesh.go:102-131 | once the counts are known the loop never reads counts again, and neither counter ever grows |
| OffReader.OffBodyIgnoresAfterDone | joymesh.go:127-129 | once both counts are used up, every further line is ignored |
| OffReader.OffBodyAppend | joymesh.go:102-131 | reading two runs of lines equals reading the first run and then the second from where it stopped |
| OffReader.OffStepKeepsInvariant | joymesh.go:102-131 | each step keeps the lockstep (one normal per face, three instances per face), the positions as the corner tuples of the faces, and no face before the vertex lines are done |
| OffReader.OffBodyKeepsInvariant | joymesh.go:102-131 | the whole loop keeps that invariant |
| OffReader.OffRead | joymesh.go:88-132 | empty input or a first line without "OFF" is invalid; success needs a valid header; in either normal mode the conversion succeeds exactly when the lines after the header read successfully, so the smooth pass never fails on the OFF path |
| OffReader.OffBodyNormalsCover | joymesh.go:236-247 | after a successful read of the OFF lines every recorded face has a three-number normal, so the `tempNormal[f]` access of the smooth pass cannot panic |
| OffReader.OffReadShape | joymesh.go:88-132 | empty input or a first line without "OFF" is invalid; a successful OFF read is a flat triangle list with three instances per face, and holds three normal numbers per vertex instance in either normal mode |
| Convert.Wrap | joymesh.go:30 | the `uint32` counter equals the number of increments below 2^32 and agrees with it modulo 2^32 |
| Convert.ConvertMesh | joymesh.go:58-143 | ".obj" is checked before ".off"; any other extension is refused; the mesh carries the chosen reader's arrays and wrapped count |
| Convert.ConvertShape | joymesh.go:137-143 | every converted mesh holds three position numbers per vertex instance the reader counted; its `uint32` count is that number modulo 2^32, so it matches the positions exactly below 2^32; an OFF mesh has as many normal numbers as position numbers, and its instance count is a multiple of three |

## Left out

- Reading the file (`os.Open`, `bufio.Scanner`): the input is given as its sequence of lines. A file with no lines reads an empty first line, as `scanner.Text()` does.
- Command-line handling, the usage text, logging (`log.Println`) and writing the output (protobuf text or length-prefixed binary): I/O with no logic to model.
- `os.Getenv("NORMALS") == "smooth"` is the `smooth` parameter of `Normals.CalculateOffNormals` and `OffReader.OffRead`.
- `strconv.Atoi`, `strconv.ParseFloat` and `math.Sqrt` are the caller-supplied `Numbers.Runtime` functions. Their decimal syntax and rounding are foreign code.
- `float64` arithmetic is modelled as exact real arithmetic. Rounding, NaN and infinities are not modelled.
- `vertexCount` is passed to `calculateOffNormals` only as a map-capacity hint, so the model drops it.
- Normals.SmoothPassNormalizesOnce: the smooth normals equal the reference definition only under an exact square root (`Vectors.SqrtExact`). With a rounding square root, renormalising a shared entry may change its last bits, and that is not modelled.
- Text.Fields: its own contract says only that every piece is a word. That the pieces are the maximal runs of non-space characters, in order, is stated by `Text.FieldsSkipSpaces` and `Text.FieldsWord`.
- Normals.SmoothSharedVertex: holds only under an exact square root. With a square root that is not exact, the first instance of a vertex gets its sum normalised once and later instances normalise that result again, so they can differ.
- Normals.SmoothPass: for a repeated instance of a vertex, its contract says only that three numbers are appended. What they are is stated in `Normals.SmoothPassNormalizesOnce`, under an exact square root.
- Vectors.Normalize: its contract covers only the zero vector. The unit-length property is in `Vectors.NormalizeIsUnit`, under an exact positive length.
- Builder.AddOffFacesData: a polygon line that panics part way through its fan is one error. The triangles appended before the panic are not observable, because the program exits.
- Convert.ConvertShape: the shape of the texture-coordinate and normal arrays of an OBJ mesh is stated through `ObjReader.ObjReadKeepsInvariant` (whole triples, never more than positions), not per instance.

## Findings

| source | as written | input that shows it | evidently intended | confidence | as-written member | corrected member |
|---|---|---|---|---|---|---|
| joymesh.go:303-307 | a negative OBJ index resolves to `size - index` | index -1 on a table of n >= 1 entries gives slot n+1, past the end, so `f -1 -2 -3` panics instead of using the last three vertices | `size + index`: -1 names the last element, as the comment on line 305 says | high; not executed | Index.MinusOneIsPastTheEnd | Index.ConventionalCountsFromTheEnd |

The OBJ reader and `Convert.ConvertMesh` take an `Index.IndexPolicy`. `AsWritten` resolves
indices with `Index.ObjIndexToArrayIndex`. `Conventional` resolves them with the corrected
`Index.ObjIndexConventional`. Every reader property above is proved for both policies.
