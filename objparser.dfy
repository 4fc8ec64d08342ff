/** The Wavefront OBJ reader of obj-parser/main.go: `v`, `vt`, `vn` and `f` statements are
    parsed line by line into four ordered lists. The file is given as its sequence of lines
    (opening and scanning it is not modelled); float parsing is left uninterpreted. */
module ObjParser {
  import opened Wrappers
  import opened Vectors
  import opened GoText

  datatype TextureCoordinate = TextureCoordinate(u: real, v: real)

  datatype Normal = Normal(x: real, y: real, z: real)

  /** One polygon: 0-based indices into the vertex, texture-coordinate and normal lists. */
  datatype Face = Face(vertexIndices: seq<int>, textureCoordinateIndices: seq<int>, normalIndices: seq<int>)

  datatype Obj = Obj(vertices: seq<Vec3>, textureCoordinates: seq<TextureCoordinate>,
                     normals: seq<Normal>, faces: seq<Face>)

  const EmptyFace: Face := Face([], [], [])

  const EmptyObj: Obj := Obj([], [], [], [])

  /** The errors the parser returns: too few fields for a statement, or a failed number conversion. */
  datatype Error =
    | InvalidVertex(fields: seq<string>)
    | InvalidTextureCoordinate(fields: seq<string>)
    | InvalidNormal(fields: seq<string>)
    | ConversionError(cause: NumError)

  /** `strconv.ParseFloat(s, 64)` (None when it returns an error) and the `float32(x)` narrowing,
      both uninterpreted. */
  datatype FloatConversions = FloatConversions(parseFloat: string -> Option<real>, toFloat32: real -> real)

  function ParseFloat(fc: FloatConversions, s: string): Result<real, Error> {
    match fc.parseFloat(s)
    case Some(x) => Success(x)
    case None => Failure(ConversionError(NumError("ParseFloat", s)))
  }

  // ---------------------------------------------------------------- v, vt, vn

  /** `parseVertex`: `v x y z`, narrowed to float32; further fields are ignored. */
  function ParseVertex(fields: seq<string>, fc: FloatConversions): (r: Result<Vec3, Error>)
    ensures |fields| < 4 ==> r == Failure(InvalidVertex(fields))
    ensures r.Success? <==> |fields| >= 4 && forall i :: 1 <= i < 4 ==> fc.parseFloat(fields[i]).Some?
    ensures r.Success? ==> r.value == Vec3(fc.toFloat32(fc.parseFloat(fields[1]).value),
                                           fc.toFloat32(fc.parseFloat(fields[2]).value),
                                           fc.toFloat32(fc.parseFloat(fields[3]).value))
    ensures |fields| >= 4 && r.Failure? ==>
      exists i :: 1 <= i < 4 && FirstBadFloat(fields, fc, i) && r.error == ConversionError(NumError("ParseFloat", fields[i]))
  {
    if |fields| < 4 then Failure(InvalidVertex(fields))
    else
      var x :- ParseFloat(fc, fields[1]);
      var y :- ParseFloat(fc, fields[2]);
      var z :- ParseFloat(fc, fields[3]);
      Success(Vec3(fc.toFloat32(x), fc.toFloat32(y), fc.toFloat32(z)))
  }

  /** `fields[i]` is the first coordinate (from position 1 on) that does not parse. */
  predicate FirstBadFloat(fields: seq<string>, fc: FloatConversions, i: nat)
    requires i < |fields|
  {
    fc.parseFloat(fields[i]).None? && forall j :: 1 <= j < i ==> fc.parseFloat(fields[j]).Some?
  }

  /** `parseTextureCoordinate`: `vt u v`; further fields are ignored. */
  function ParseTextureCoordinate(fields: seq<string>, fc: FloatConversions): (r: Result<TextureCoordinate, Error>)
    ensures |fields| < 3 ==> r == Failure(InvalidTextureCoordinate(fields))
    ensures r.Success? <==> |fields| >= 3 && forall i :: 1 <= i < 3 ==> fc.parseFloat(fields[i]).Some?
    ensures r.Success? ==> r.value == TextureCoordinate(fc.parseFloat(fields[1]).value, fc.parseFloat(fields[2]).value)
    ensures |fields| >= 3 && r.Failure? ==>
      exists i :: 1 <= i < 3 && FirstBadFloat(fields, fc, i) && r.error == ConversionError(NumError("ParseFloat", fields[i]))
  {
    if |fields| < 3 then Failure(InvalidTextureCoordinate(fields))
    else
      var u :- ParseFloat(fc, fields[1]);
      var v :- ParseFloat(fc, fields[2]);
      Success(TextureCoordinate(u, v))
  }

  /** `parseNormal`: `vn x y z`, kept at float64; further fields are ignored. */
  function ParseNormal(fields: seq<string>, fc: FloatConversions): (r: Result<Normal, Error>)
    ensures |fields| < 4 ==> r == Failure(InvalidNormal(fields))
    ensures r.Success? <==> |fields| >= 4 && forall i :: 1 <= i < 4 ==> fc.parseFloat(fields[i]).Some?
    ensures r.Success? ==> r.value == Normal(fc.parseFloat(fields[1]).value, fc.parseFloat(fields[2]).value,
                                             fc.parseFloat(fields[3]).value)
    ensures |fields| >= 4 && r.Failure? ==>
      exists i :: 1 <= i < 4 && FirstBadFloat(fields, fc, i) && r.error == ConversionError(NumError("ParseFloat", fields[i]))
  {
    if |fields| < 4 then Failure(InvalidNormal(fields))
    else
      var x :- ParseFloat(fc, fields[1]);
      var y :- ParseFloat(fc, fields[2]);
      var z :- ParseFloat(fc, fields[3]);
      Success(Normal(x, y, z))
  }

  /** Fields after the ones a statement needs never change its outcome. */
  lemma ExtraFieldsIgnored(fields: seq<string>, extra: seq<string>, fc: FloatConversions)
    ensures |fields| >= 4 ==> ParseVertex(fields + extra, fc) == ParseVertex(fields, fc)
    ensures |fields| >= 3 ==> ParseTextureCoordinate(fields + extra, fc) == ParseTextureCoordinate(fields, fc)
    ensures |fields| >= 4 ==> ParseNormal(fields + extra, fc) == ParseNormal(fields, fc)
  {
  }

  // ---------------------------------------------------------------- f

  /** One corner `v`, `v/t`, `v//n` or `v/t/n` of a face, with 0-based indices. */
  datatype Corner = Corner(vertex: int, texture: Option<int>, normal: Option<int>)

  /** The `/`-separated part `k` exists and is not empty. */
  predicate HasPart(parts: seq<string>, k: nat) {
    |parts| > k && parts[k] != ""
  }

  /** `strconv.Atoi(s)` followed by the 1-based to 0-based conversion `i - 1` (on a 64-bit `int`). */
  function ParseIndex(s: string): (r: Result<int, Error>)
    ensures r.Success? <==> IsIntegerSyntax(s) && IsInt64(IntegerValue(s))
    ensures r.Success? ==> r.value == (if IntegerValue(s) == MinInt64 then MaxInt64 else IntegerValue(s) - 1)
    ensures r.Failure? ==> r.error == ConversionError(NumError("Atoi", s))
  {
    AtoiSpec(s);
    match Atoi(s)
    case Success(i) => Success(Dec64(i))
    case Failure(e) => Failure(ConversionError(e))
  }

  /** An optional part: absent or empty gives no index, otherwise it must parse. */
  function OptionalIndex(parts: seq<string>, k: nat): Result<Option<int>, Error> {
    if HasPart(parts, k) then
      match ParseIndex(parts[k])
      case Success(i) => Success(Some(i))
      case Failure(e) => Failure(e)
    else Success(None)
  }

  /** The body of `parseFace`'s loop for one corner. The vertex part is mandatory; a texture index
      exists exactly when part 1 is present and non-empty, a normal index exactly when part 2 is;
      parts after the third are ignored. */
  function ParseCorner(corner: string): (r: Result<Corner, Error>)
    ensures var parts := Split(corner, '/');
      r.Success? <==> ParseIndex(parts[0]).Success?
                      && (HasPart(parts, 1) ==> ParseIndex(parts[1]).Success?)
                      && (HasPart(parts, 2) ==> ParseIndex(parts[2]).Success?)
    ensures var parts := Split(corner, '/');
      r.Success? ==>
        && r.value.vertex == ParseIndex(parts[0]).value
        && (r.value.texture.Some? <==> HasPart(parts, 1))
        && (r.value.normal.Some? <==> HasPart(parts, 2))
        && (r.value.texture.Some? ==> r.value.texture.value == ParseIndex(parts[1]).value)
        && (r.value.normal.Some? ==> r.value.normal.value == ParseIndex(parts[2]).value)
  {
    var parts := Split(corner, '/');
    var v :- ParseIndex(parts[0]);
    var t :- OptionalIndex(parts, 1);
    var n :- OptionalIndex(parts, 2);
    Success(Corner(v, t, n))
  }

  /** Appends one parsed corner to the three index lists. */
  function AddCorner(f: Face, c: Corner): Face {
    Face(f.vertexIndices + [c.vertex],
         f.textureCoordinateIndices + (if c.texture.Some? then [c.texture.value] else []),
         f.normalIndices + (if c.normal.Some? then [c.normal.value] else []))
  }

  /** Each corner of a face parsed on its own. */
  function ParsedCorners(corners: seq<string>): (rs: seq<Result<Corner, Error>>)
    ensures |rs| == |corners|
    ensures forall k :: 0 <= k < |corners| ==> rs[k] == ParseCorner(corners[k])
  {
    seq(|corners|, k requires 0 <= k < |corners| => ParseCorner(corners[k]))
  }

  /** The parsed corners appended in order onto `acc`, stopping at the first that failed. */
  function FaceFrom(acc: Face, rs: seq<Result<Corner, Error>>): Result<Face, Error>
    decreases |rs|
  {
    if rs == [] then Success(acc)
    else match rs[0]
      case Failure(e) => Failure(e)
      case Success(c) => FaceFrom(AddCorner(acc, c), rs[1..])
  }

  /** What `parseFace` returns for the fields of an `f` line (the keyword first). */
  function FaceOf(fields: seq<string>): Result<Face, Error>
    requires |fields| >= 1
  {
    FaceFrom(EmptyFace, ParsedCorners(fields[1..]))
  }

  /** One step of `FaceFrom`: a failed corner ends the fold with its error, a parsed one is
      appended. */
  lemma FaceFromStep(acc: Face, rs: seq<Result<Corner, Error>>, i: nat)
    requires i < |rs|
    ensures rs[i].Failure? ==> FaceFrom(acc, rs[i..]) == Failure(rs[i].error)
    ensures rs[i].Success? ==> FaceFrom(acc, rs[i..]) == FaceFrom(AddCorner(acc, rs[i].value), rs[i + 1..])
  {
    assert rs[i..][0] == rs[i] && rs[i..][1..] == rs[i + 1..];
  }

  /** `parseFace`: one corner per field after `f`, appended to three index lists. */
  method ParseFace(fields: seq<string>) returns (r: Result<Face, Error>)
    requires |fields| >= 1
    ensures r == FaceOf(fields)
  {
    var vertexIndices: seq<int> := [];
    var textureCoordinateIndices: seq<int> := [];
    var normalIndices: seq<int> := [];
    ghost var rs := ParsedCorners(fields[1..]);
    for k := 1 to |fields|
      invariant FaceFrom(Face(vertexIndices, textureCoordinateIndices, normalIndices), rs[k - 1..]) == FaceOf(fields)
    {
      ghost var before := Face(vertexIndices, textureCoordinateIndices, normalIndices);
      ghost var corner := ParseCorner(fields[k]);
      assert rs[k - 1] == corner;
      FaceFromStep(before, rs, k - 1);
      var parts := Split(fields[k], '/');
      var vi := ParseIndex(parts[0]);
      if vi.Failure? {
        return Failure(vi.error);
      }
      vertexIndices := vertexIndices + [vi.value];
      ghost var texture: Option<int> := None;
      ghost var normal: Option<int> := None;
      if |parts| > 1 && parts[1] != "" {
        var ti := ParseIndex(parts[1]);
        if ti.Failure? {
          return Failure(ti.error);
        }
        textureCoordinateIndices := textureCoordinateIndices + [ti.value];
        texture := Some(ti.value);
      }
      if |parts| > 2 && parts[2] != "" {
        var ni := ParseIndex(parts[2]);
        if ni.Failure? {
          return Failure(ni.error);
        }
        normalIndices := normalIndices + [ni.value];
        normal := Some(ni.value);
      }
      assert OptionalIndex(parts, 1) == Success(texture) && OptionalIndex(parts, 2) == Success(normal);
      assert corner == Success(Corner(vi.value, texture, normal));
      assert textureCoordinateIndices == before.textureCoordinateIndices + (if texture.Some? then [texture.value] else []);
      assert normalIndices == before.normalIndices + (if normal.Some? then [normal.value] else []);
      assert Face(vertexIndices, textureCoordinateIndices, normalIndices) == AddCorner(before, corner.value);
    }
    return Success(Face(vertexIndices, textureCoordinateIndices, normalIndices));
  }

  /** On success there is one vertex index per corner, in order, each the one that corner
      parsed to; what was accumulated before is kept. */
  lemma {:induction false} FaceVertexIndices(acc: Face, rs: seq<Result<Corner, Error>>)
    requires FaceFrom(acc, rs).Success?
    ensures var f := FaceFrom(acc, rs).value;
      && |f.vertexIndices| == |acc.vertexIndices| + |rs|
      && f.vertexIndices[..|acc.vertexIndices|] == acc.vertexIndices
      && forall k :: 0 <= k < |rs| ==> rs[k].Success? && f.vertexIndices[|acc.vertexIndices| + k] == rs[k].value.vertex
    decreases |rs|
  {
    if rs != [] {
      var acc' := AddCorner(acc, rs[0].value);
      FaceVertexIndices(acc', rs[1..]);
      var f := FaceFrom(acc, rs).value;
      var n := |acc.vertexIndices|;
      assert f.vertexIndices[..n + 1] == acc'.vertexIndices;
      assert f.vertexIndices[..n] == f.vertexIndices[..n + 1][..n];
      forall k | 0 <= k < |rs|
        ensures rs[k].Success? && f.vertexIndices[n + k] == rs[k].value.vertex
      {
        if k > 0 {
          assert rs[k] == rs[1..][k - 1];
        } else {
          assert f.vertexIndices[n] == f.vertexIndices[..n + 1][n];
        }
      }
    }
  }

  /** The texture indices of the corners that have one, in order. */
  function TextureIndices(rs: seq<Result<Corner, Error>>): seq<int> {
    if rs == [] then []
    else (if rs[0].Success? && rs[0].value.texture.Some? then [rs[0].value.texture.value] else [])
         + TextureIndices(rs[1..])
  }

  /** The normal indices of the corners that have one, in order. */
  function NormalIndices(rs: seq<Result<Corner, Error>>): seq<int> {
    if rs == [] then []
    else (if rs[0].Success? && rs[0].value.normal.Some? then [rs[0].value.normal.value] else [])
         + NormalIndices(rs[1..])
  }

  /** The texture and normal lists receive an entry only from the corners that have that part,
      so they can be shorter than the vertex list. */
  lemma {:induction false} FaceOptionalIndices(acc: Face, rs: seq<Result<Corner, Error>>)
    requires FaceFrom(acc, rs).Success?
    ensures var f := FaceFrom(acc, rs).value;
      && f.textureCoordinateIndices == acc.textureCoordinateIndices + TextureIndices(rs)
      && f.normalIndices == acc.normalIndices + NormalIndices(rs)
      && |TextureIndices(rs)| <= |rs| && |NormalIndices(rs)| <= |rs|
    decreases |rs|
  {
    if rs != [] {
      var acc' := AddCorner(acc, rs[0].value);
      FaceOptionalIndices(acc', rs[1..]);
      var c := rs[0].value;
      var t := if c.texture.Some? then [c.texture.value] else [];
      var n := if c.normal.Some? then [c.normal.value] else [];
      assert acc'.textureCoordinateIndices == acc.textureCoordinateIndices + t;
      assert acc'.normalIndices == acc.normalIndices + n;
    }
  }

  /** A face fails exactly when one of its corners fails. */
  lemma {:induction false} FaceFailure(acc: Face, rs: seq<Result<Corner, Error>>)
    ensures FaceFrom(acc, rs).Failure? <==> exists k :: 0 <= k < |rs| && rs[k].Failure?
    decreases |rs|
  {
    if rs != [] && rs[0].Success? {
      var rest := rs[1..];
      FaceFailure(AddCorner(acc, rs[0].value), rest);
      if exists k :: 0 <= k < |rs| && rs[k].Failure? {
        var k :| 0 <= k < |rs| && rs[k].Failure?;
        assert rest[k - 1] == rs[k];
      }
      if exists k :: 0 <= k < |rest| && rest[k].Failure? {
        var k :| 0 <= k < |rest| && rest[k].Failure?;
        assert rest[k] == rs[k + 1];
      }
    }
  }

  /** The error a failing face reports is that of its first failing corner. */
  lemma {:induction false} FaceFirstError(acc: Face, rs: seq<Result<Corner, Error>>)
    requires FaceFrom(acc, rs).Failure?
    ensures exists k :: (0 <= k < |rs| && rs[k] == Failure(FaceFrom(acc, rs).error) &&
                         forall j :: 0 <= j < k ==> rs[j].Success?)
    decreases |rs|
  {
    if rs[0].Success? {
      var rest := rs[1..];
      var acc' := AddCorner(acc, rs[0].value);
      FaceFirstError(acc', rest);
      var k :| 0 <= k < |rest| && rest[k] == Failure(FaceFrom(acc', rest).error) &&
        forall j :: 0 <= j < k ==> rest[j].Success?;
      assert rest[k] == rs[k + 1];
      forall j | 0 <= j < k + 1 ensures rs[j].Success? {
        if j > 0 { assert rs[j] == rest[j - 1]; }
      }
    }
  }

  // ---------------------------------------------------------------- lines

  /** The fields of a statement line, or None for a line that is blank or starts with `#`
      once trimmed. A statement always has a first field, its keyword. */
  function Statement(line: string): (r: Option<seq<string>>)
    ensures r.None? <==> (TrimSpace(line) == [] || TrimSpace(line)[0] == '#')
    ensures r.Some? ==> |r.value| > 0 && r.value[0] != [] && r.value[0][0] != '#'
  {
    var t := TrimSpace(line);
    if t == [] || t[0] == '#' then None else Some(Fields(t))
  }

  /** One iteration of `ParseObjFile`'s loop: blank and comment lines leave `obj` as it is. */
  function ParseLine(obj: Obj, line: string, fc: FloatConversions): Result<Obj, Error> {
    match Statement(line)
    case None => Success(obj)
    case Some(fields) => ParseStatement(obj, fields, fc)
  }

  /** Dispatch on the keyword and append to its list; any other keyword is ignored. */
  function ParseStatement(obj: Obj, fields: seq<string>, fc: FloatConversions): Result<Obj, Error>
    requires |fields| > 0
  {
    if IsKeyword(fields[0]) then
      var e :- ParseElement(fields, fc);
      Success(AddElement(obj, e))
    else
      Success(obj)
  }

  /** `obj` with `e` appended to the list it belongs to. */
  function AddElement(obj: Obj, e: Element): Obj {
    match e
    case VertexElement(v) => obj.(vertices := obj.vertices + [v])
    case TextureElement(tc) => obj.(textureCoordinates := obj.textureCoordinates + [tc])
    case NormalElement(n) => obj.(normals := obj.normals + [n])
    case FaceElement(f) => obj.(faces := obj.faces + [f])
  }

  /** `ParseStatement` case by case: each keyword parses with its own parser and appends to its
      own list; an error is passed on as it is. */
  lemma StatementDispatch(obj: Obj, fields: seq<string>, fc: FloatConversions)
    requires |fields| > 0
    ensures fields[0] == "v" ==> (ParseStatement(obj, fields, fc) ==
      (match ParseVertex(fields, fc)
       case Success(v) => Success(obj.(vertices := obj.vertices + [v]))
       case Failure(e) => Failure(e)))
    ensures fields[0] == "vt" ==> (ParseStatement(obj, fields, fc) ==
      (match ParseTextureCoordinate(fields, fc)
       case Success(tc) => Success(obj.(textureCoordinates := obj.textureCoordinates + [tc]))
       case Failure(e) => Failure(e)))
    ensures fields[0] == "vn" ==> (ParseStatement(obj, fields, fc) ==
      (match ParseNormal(fields, fc)
       case Success(n) => Success(obj.(normals := obj.normals + [n]))
       case Failure(e) => Failure(e)))
    ensures fields[0] == "f" ==> (ParseStatement(obj, fields, fc) ==
      (match FaceOf(fields)
       case Success(f) => Success(obj.(faces := obj.faces + [f]))
       case Failure(e) => Failure(e)))
    ensures !IsKeyword(fields[0]) ==> ParseStatement(obj, fields, fc) == Success(obj)
  {
  }

  /** The lines parsed in order onto `obj`, aborting at the first error. */
  function ParseLines(obj: Obj, lines: seq<string>, fc: FloatConversions): Result<Obj, Error>
    decreases |lines|
  {
    if lines == [] then Success(obj)
    else match ParseLine(obj, lines[0], fc)
      case Failure(e) => Failure(e)
      case Success(o) => ParseLines(o, lines[1..], fc)
  }

  /** What `ParseObjFile` returns for a file with these lines. */
  function ParseObj(lines: seq<string>, fc: FloatConversions): Result<Obj, Error> {
    ParseLines(EmptyObj, lines, fc)
  }

  /** `ParseObjFile` without the file handling: trims each line, skips blank and comment lines,
      dispatches on the first field and returns at the first error. */
  method ParseObjFile(lines: seq<string>, fc: FloatConversions) returns (r: Result<Obj, Error>)
    ensures r == ParseObj(lines, fc)
  {
    var obj := EmptyObj;
    for i := 0 to |lines|
      invariant ParseLines(obj, lines[i..], fc) == ParseObj(lines, fc)
    {
      assert lines[i..][1..] == lines[i + 1..];
      var line := TrimSpace(lines[i]);
      if line == "" || line[0] == '#' {
        continue;
      }
      var fields := Fields(line);
      assert ParseLine(obj, lines[i], fc) == ParseStatement(obj, fields, fc);
      StatementDispatch(obj, fields, fc);
      if fields[0] == "v" {
        var vertex := ParseVertex(fields, fc);
        if vertex.Failure? {
          return Failure(vertex.error);
        }
        obj := obj.(vertices := obj.vertices + [vertex.value]);
      } else if fields[0] == "vt" {
        var tc := ParseTextureCoordinate(fields, fc);
        if tc.Failure? {
          return Failure(tc.error);
        }
        obj := obj.(textureCoordinates := obj.textureCoordinates + [tc.value]);
      } else if fields[0] == "vn" {
        var normal := ParseNormal(fields, fc);
        if normal.Failure? {
          return Failure(normal.error);
        }
        obj := obj.(normals := obj.normals + [normal.value]);
      } else if fields[0] == "f" {
        var face := ParseFace(fields);
        if face.Failure? {
          return Failure(face.error);
        }
        obj := obj.(faces := obj.faces + [face.value]);
      }
    }
    return Success(obj);
  }

  // ---------------------------------------------------------------- properties of a parse

  /** The fields of the statement on `line` if its keyword is `keyword`. */
  function StatementIn(line: string, keyword: string): seq<seq<string>> {
    match Statement(line)
    case Some(fields) => if fields[0] == keyword then [fields] else []
    case None => []
  }

  /** The fields of the `keyword` statements among `lines`, in file order. */
  function Statements(lines: seq<string>, keyword: string): seq<seq<string>> {
    if lines == [] then [] else StatementIn(lines[0], keyword) + Statements(lines[1..], keyword)
  }

  /** A parsed statement, tagged by the list of an `Obj` it belongs to. */
  datatype Element =
    | VertexElement(vertex: Vec3)
    | TextureElement(coordinate: TextureCoordinate)
    | NormalElement(normal: Normal)
    | FaceElement(face: Face)

  /** The keywords `ParseObjFile` acts on; a statement with any other keyword is skipped. */
  predicate IsKeyword(keyword: string) {
    keyword == "v" || keyword == "vt" || keyword == "vn" || keyword == "f"
  }

  /** What a statement with a known keyword parses to. */
  function ParseElement(fields: seq<string>, fc: FloatConversions): Result<Element, Error>
    requires |fields| > 0 && IsKeyword(fields[0])
  {
    if fields[0] == "v" then
      var v :- ParseVertex(fields, fc); Success(VertexElement(v))
    else if fields[0] == "vt" then
      var tc :- ParseTextureCoordinate(fields, fc); Success(TextureElement(tc))
    else if fields[0] == "vn" then
      var n :- ParseNormal(fields, fc); Success(NormalElement(n))
    else
      var f :- FaceOf(fields); Success(FaceElement(f))
  }

  /** The list of `obj` that statements with `keyword` are appended to. */
  function ListOf(obj: Obj, keyword: string): seq<Element>
    requires IsKeyword(keyword)
  {
    if keyword == "v" then
      seq(|obj.vertices|, i requires 0 <= i < |obj.vertices| => VertexElement(obj.vertices[i]))
    else if keyword == "vt" then
      seq(|obj.textureCoordinates|,
          i requires 0 <= i < |obj.textureCoordinates| => TextureElement(obj.textureCoordinates[i]))
    else if keyword == "vn" then
      seq(|obj.normals|, i requires 0 <= i < |obj.normals| => NormalElement(obj.normals[i]))
    else
      seq(|obj.faces|, i requires 0 <= i < |obj.faces| => FaceElement(obj.faces[i]))
  }

  /** `elements` are what the statements `st` parse to, one each, in order. */
  ghost predicate ParsedFrom(st: seq<seq<string>>, elements: seq<Element>, fc: FloatConversions) {
    && |st| == |elements|
    && forall k :: 0 <= k < |st| ==>
         |st[k]| > 0 && IsKeyword(st[k][0]) && ParseElement(st[k], fc) == Success(elements[k])
  }

  lemma ParsedFromConcat(a: seq<seq<string>>, b: seq<seq<string>>, x: seq<Element>, y: seq<Element>,
                         fc: FloatConversions)
    requires ParsedFrom(a, x, fc) && ParsedFrom(b, y, fc)
    ensures ParsedFrom(a + b, x + y, fc)
  {
    forall k | |a| <= k < |a| + |b| ensures (a + b)[k] == b[k - |a|] && (x + y)[k] == y[k - |a|] {
    }
  }

  /** A successful statement appends its element to the list of its keyword, and only there. */
  lemma StatementElements(obj: Obj, fields: seq<string>, keyword: string, fc: FloatConversions)
    requires |fields| > 0 && IsKeyword(keyword) && ParseStatement(obj, fields, fc).Success?
    ensures fields[0] == keyword ==> ParseElement(fields, fc).Success?
    ensures var added := if fields[0] == keyword then [ParseElement(fields, fc).value] else [];
      ListOf(ParseStatement(obj, fields, fc).value, keyword) == ListOf(obj, keyword) + added
  {
    var o := ParseStatement(obj, fields, fc).value;
    if fields[0] == keyword {
      var e := ParseElement(fields, fc).value;
      assert ListOf(o, keyword) == ListOf(obj, keyword) + [e] by {
        var before := ListOf(obj, keyword);
        forall i | 0 <= i < |before| ensures ListOf(o, keyword)[i] == before[i] {
        }
      }
    } else {
      assert !IsKeyword(fields[0]) ==> o == obj;
    }
  }

  /** A line appends the element of its statement to the list of its keyword, and only there. */
  lemma LineElements(obj: Obj, line: string, keyword: string, fc: FloatConversions)
    requires IsKeyword(keyword) && ParseLine(obj, line, fc).Success?
    ensures var o := ParseLine(obj, line, fc).value;
      var n := |ListOf(obj, keyword)|;
      && n <= |ListOf(o, keyword)|
      && ListOf(o, keyword)[..n] == ListOf(obj, keyword)
      && ParsedFrom(StatementIn(line, keyword), ListOf(o, keyword)[n..], fc)
  {
    match Statement(line)
    case None =>
      assert StatementIn(line, keyword) == [];
      ParsedFromAppended(ListOf(obj, keyword), ListOf(obj, keyword), [], [], fc);
    case Some(fields) =>
      StatementElements(obj, fields, keyword, fc);
      var l0 := ListOf(obj, keyword);
      var l := ListOf(ParseStatement(obj, fields, fc).value, keyword);
      if fields[0] == keyword {
        var e := ParseElement(fields, fc).value;
        assert StatementIn(line, keyword) == [fields];
        assert l == l0 + [e];
        ParsedFromSingle(fields, e, fc);
        ParsedFromAppended(l0, l, [fields], [e], fc);
      } else {
        assert StatementIn(line, keyword) == [];
        ParsedFromAppended(l0, l, [], [], fc);
      }
  }

  lemma ParsedFromSingle(fields: seq<string>, e: Element, fc: FloatConversions)
    requires |fields| > 0 && IsKeyword(fields[0]) && ParseElement(fields, fc) == Success(e)
    ensures ParsedFrom([fields], [e], fc)
  {
  }

  lemma ParsedFromAppended(l0: seq<Element>, l: seq<Element>, st: seq<seq<string>>, added: seq<Element>,
                           fc: FloatConversions)
    requires l == l0 + added && ParsedFrom(st, added, fc)
    ensures |l0| <= |l| && l[..|l0|] == l0 && ParsedFrom(st, l[|l0|..], fc)
  {
    assert l[|l0|..] == added;
  }

  lemma SplitAt(l0: seq<Element>, l1: seq<Element>, l: seq<Element>)
    requires |l0| <= |l1| <= |l| && l1[..|l0|] == l0 && l[..|l1|] == l1
    ensures l[..|l0|] == l0 && l[|l0|..] == l1[|l0|..] + l[|l1|..]
  {
    assert l[..|l0|] == l[..|l1|][..|l0|];
  }

  /** On success each list of the result is the list it started from followed by what the
      statements with its keyword parse to, one element per statement, in file order. */
  lemma {:induction false} ParsedLists(obj: Obj, lines: seq<string>, keyword: string, fc: FloatConversions)
    requires IsKeyword(keyword) && ParseLines(obj, lines, fc).Success?
    ensures var o := ParseLines(obj, lines, fc).value;
      var n := |ListOf(obj, keyword)|;
      && n <= |ListOf(o, keyword)|
      && ListOf(o, keyword)[..n] == ListOf(obj, keyword)
      && ParsedFrom(Statements(lines, keyword), ListOf(o, keyword)[n..], fc)
    decreases |lines|
  {
    if lines != [] {
      var o1 := ParseLine(obj, lines[0], fc).value;
      assert ParseLines(obj, lines, fc) == ParseLines(o1, lines[1..], fc);
      LineElements(obj, lines[0], keyword, fc);
      ParsedLists(o1, lines[1..], keyword, fc);
      var l0, l1, l := ListOf(obj, keyword), ListOf(o1, keyword), ListOf(ParseLines(obj, lines, fc).value, keyword);
      SplitAt(l0, l1, l);
      ParsedFromConcat(StatementIn(lines[0], keyword), Statements(lines[1..], keyword),
                       l1[|l0|..], l[|l1|..], fc);
    }
  }

  /** Parsing a whole file: each list of the result holds what the statements with its keyword
      parse to, one element per statement, in file order. */
  lemma ObjLists(lines: seq<string>, keyword: string, fc: FloatConversions)
    requires IsKeyword(keyword) && ParseObj(lines, fc).Success?
    ensures ParsedFrom(Statements(lines, keyword), ListOf(ParseObj(lines, fc).value, keyword), fc)
  {
    ParsedLists(EmptyObj, lines, keyword, fc);
  }

  /** The error a line reports, whatever has been parsed before it. */
  function LineError(line: string, fc: FloatConversions): Option<Error> {
    match Statement(line)
    case None => None
    case Some(fields) =>
      if IsKeyword(fields[0]) && ParseElement(fields, fc).Failure? then
        Some(ParseElement(fields, fc).error)
      else
        None
  }

  lemma StatementFailure(obj: Obj, fields: seq<string>, fc: FloatConversions)
    requires |fields| > 0
    ensures ParseStatement(obj, fields, fc).Failure?
      <==> IsKeyword(fields[0]) && ParseElement(fields, fc).Failure?
    ensures ParseStatement(obj, fields, fc).Failure? ==>
      ParseStatement(obj, fields, fc).error == ParseElement(fields, fc).error
  {
  }

  /** A line fails exactly when it reports an error, and the error does not depend on `obj`. */
  lemma LineFailure(obj: Obj, line: string, fc: FloatConversions)
    ensures ParseLine(obj, line, fc).Failure? <==> LineError(line, fc).Some?
    ensures ParseLine(obj, line, fc).Failure? ==> ParseLine(obj, line, fc).error == LineError(line, fc).value
  {
    match Statement(line)
    case None =>
    case Some(fields) =>
      StatementFailure(obj, fields, fc);
  }

  /** The error each line reports, line by line. */
  function LineErrors(lines: seq<string>, fc: FloatConversions): (errs: seq<Option<Error>>)
    ensures |errs| == |lines|
    ensures forall k :: 0 <= k < |lines| ==> errs[k] == LineError(lines[k], fc)
  {
    seq(|lines|, k requires 0 <= k < |lines| => LineError(lines[k], fc))
  }

  /** The first error in `errs`. */
  function FirstSome(errs: seq<Option<Error>>): (r: Option<Error>)
    ensures r.Some? ==> exists k :: (0 <= k < |errs| && errs[k] == r &&
                                     forall j :: 0 <= j < k ==> errs[j].None?)
  {
    if errs == [] then None
    else if errs[0].Some? then errs[0]
    else
      var r := FirstSome(errs[1..]);
      if r.Some? then
        var k :| 0 <= k < |errs[1..]| && errs[1..][k] == r && forall j :: 0 <= j < k ==> errs[1..][j].None?;
        assert errs[k + 1] == r;
        assert forall j :: 0 <= j < k + 1 ==> errs[j].None? by {
          forall j | 0 <= j < k + 1 ensures errs[j].None? {
            if j > 0 { assert errs[j] == errs[1..][j - 1]; }
          }
        }
        r
      else r
  }

  /** The error parsing reports is that of the first line that reports one. */
  lemma {:induction false} ObjFirstError(obj: Obj, lines: seq<string>, fc: FloatConversions)
    requires ParseLines(obj, lines, fc).Failure?
    ensures FirstSome(LineErrors(lines, fc)) == Some(ParseLines(obj, lines, fc).error)
    decreases |lines|
  {
    var errs := LineErrors(lines, fc);
    LineFailure(obj, lines[0], fc);
    if ParseLine(obj, lines[0], fc).Success? {
      var o1 := ParseLine(obj, lines[0], fc).value;
      assert ParseLines(obj, lines, fc) == ParseLines(o1, lines[1..], fc);
      ObjFirstError(o1, lines[1..], fc);
      assert LineErrors(lines[1..], fc) == errs[1..];
    }
  }

  /** When parsing succeeds, no line reports an error. */
  lemma {:induction false} ObjSuccess(obj: Obj, lines: seq<string>, fc: FloatConversions)
    requires ParseLines(obj, lines, fc).Success?
    ensures var errs := LineErrors(lines, fc); forall k :: 0 <= k < |errs| ==> errs[k].None?
    decreases |lines|
  {
    if lines != [] {
      var o1 := FirstLineSucceeds(obj, lines, fc);
      ObjSuccess(o1, lines[1..], fc);
      AllNoneTail(LineErrors(lines, fc), LineErrors(lines[1..], fc));
    }
  }

  /** A successful parse starts with a line that reports no error and parses to `o1`. */
  lemma FirstLineSucceeds(obj: Obj, lines: seq<string>, fc: FloatConversions) returns (o1: Obj)
    requires lines != [] && ParseLines(obj, lines, fc).Success?
    ensures LineErrors(lines, fc)[0].None?
    ensures ParseLines(o1, lines[1..], fc) == ParseLines(obj, lines, fc)
    ensures LineErrors(lines[1..], fc) == LineErrors(lines, fc)[1..]
  {
    LineFailure(obj, lines[0], fc);
    o1 := ParseLine(obj, lines[0], fc).value;
  }

  lemma AllNoneTail(errs: seq<Option<Error>>, rest: seq<Option<Error>>)
    requires errs != [] && errs[0].None? && rest == errs[1..]
    requires forall k :: 0 <= k < |rest| ==> rest[k].None?
    ensures forall k :: 0 <= k < |errs| ==> errs[k].None?
  {
    forall k | 0 < k < |errs| ensures errs[k].None? {
      assert errs[k] == rest[k - 1];
    }
  }

  /** Parsing fails exactly when some line reports an error. */
  lemma ObjFailure(obj: Obj, lines: seq<string>, fc: FloatConversions)
    ensures var errs := LineErrors(lines, fc);
      ParseLines(obj, lines, fc).Failure? <==> exists k :: 0 <= k < |errs| && errs[k].Some?
  {
    if ParseLines(obj, lines, fc).Failure? {
      ObjFirstError(obj, lines, fc);
    } else {
      ObjSuccess(obj, lines, fc);
    }
  }

  /** A line `ParseObjFile` skips: blank, a comment, or a statement with an unknown keyword. */
  predicate Ignored(line: string) {
    match Statement(line)
    case None => true
    case Some(fields) => !IsKeyword(fields[0])
  }

  /** Removing a skipped line does not change the result. */
  lemma {:induction false} IgnoredLineRemoved(obj: Obj, lines: seq<string>, i: nat, fc: FloatConversions)
    requires i < |lines| && Ignored(lines[i])
    ensures ParseLines(obj, lines[..i] + lines[i + 1..], fc) == ParseLines(obj, lines, fc)
    decreases i
  {
    var shorter := lines[..i] + lines[i + 1..];
    if i == 0 {
      IgnoredLineKept(obj, lines[0], fc);
      assert shorter == lines[1..];
    } else {
      var rest := lines[1..];
      assert shorter[0] == lines[0] && shorter[1..] == rest[..i - 1] + rest[i..];
      match ParseLine(obj, lines[0], fc)
      case Failure(_) =>
      case Success(o1) =>
        assert rest[i - 1] == lines[i];
        IgnoredLineRemoved(o1, rest, i - 1, fc);
    }
  }

  /** A skipped line leaves the `Obj` as it is. */
  lemma IgnoredLineKept(obj: Obj, line: string, fc: FloatConversions)
    requires Ignored(line)
    ensures ParseLine(obj, line, fc) == Success(obj)
  {
  }

  // ---------------------------------------------------------------- examples

  lemma SplitCorner(parts: seq<string>, corner: string)
    requires |parts| >= 1 && forall k :: 0 <= k < |parts| ==> '/' !in parts[k]
    requires Join(parts, '/') == corner
    ensures Split(corner, '/') == parts
  {
    SplitJoin(parts, '/');
  }

  /** A one-digit index `c` is read as its value and made zero-based. */
  lemma DigitIndex(c: char)
    requires IsDigit(c)
    ensures ParseIndex([c]) == Success(DigitValue(c) - 1)
  {
    assert [c][..0] == [] && [c][0] == c;
    assert DigitsValue([c]) == 10 * DigitsValue([]) + DigitValue(c);
    assert IntegerValue([c]) == DigitValue(c);
    AtoiNumeral([c]);
    assert Atoi([c]) == Success(DigitValue(c));
  }

  /** `f` corners: indices are made zero-based and a missing texture index is absent. */
  lemma CornerWithoutTexture()
    ensures ParseCorner("7//3") == Success(Corner(6, None, Some(2)))
  {
    SplitCorner(["7", "", "3"], "7//3");
    DigitIndex('7');
    DigitIndex('3');
  }

  lemma CornerWithAllIndices()
    ensures ParseCorner("1/2/3") == Success(Corner(0, Some(1), Some(2)))
  {
    SplitCorner(["1", "2", "3"], "1/2/3");
    DigitIndex('1');
    DigitIndex('2');
    DigitIndex('3');
  }

  /** Index 0 is not rejected: it becomes vertex -1. */
  lemma CornerZeroIndex()
    ensures ParseCorner("0") == Success(Corner(-1, None, None))
  {
    SplitCorner(["0"], "0");
    DigitIndex('0');
  }

  /** An empty vertex index is a conversion error from `Atoi("")`. */
  lemma CornerWithoutVertex()
    ensures ParseCorner("/2") == Failure(ConversionError(NumError("Atoi", "")))
  {
    SplitCorner(["", "2"], "/2");
  }
}
