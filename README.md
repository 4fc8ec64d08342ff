# go-tracer core in Dafny

A model of the integer, byte and sequence logic of go-tracer, a small ray tracer in Go:

- **OBJ reader** (`obj-parser/main.go`). `ParseObjFile` trims each line of a Wavefront OBJ file. It skips blank lines and `#` comments. It dispatches `v`, `vt`, `vn` and `f` statements to their parsers and appends each result to its list. It aborts at the first error. `parseFace` splits every corner on `/` and reads the vertex, texture and normal indices with `strconv.Atoi`. It makes them zero-based with `i - 1`.
- **Camera** (`camera.go`):
  - `AddColors` is `uint8` channel addition with alpha forced to 255.
  - `CreateRays` lays out the rays.
  - `Render`, for every ray, collects the faces that report a hit and selects the nearest one. It shades that hit with the lights and the material colour, then writes the pixel.
- **Scene** (`space.go`). `Space` holds two append-only lists, geometries and lights.
- **Sample image** (`image.go`). `CreateSampleImage` fills a 1024 by 1024 buffer with a colour pattern.

The modules are:

- `Wrappers`: `Option` and `Result`.
- `Vectors`: `Vec3`.
- `Images`: `uint8`, `color.RGBA`, and `image.RGBA` with its bounds-checked `Set`.
- `GoText`: `strings.TrimSpace`, `strings.Fields`, `strings.Split`, `strconv.Atoi`, and Go's 64-bit `int` wrap.
- `ObjParser`, `Scene`, `Cameras` and `SampleImage`: the four source files.

Where the Go code changes state step by step, the model is a method with loops. Each such method is proved equal to a specification function, and the properties are proved about that function:

- `ParseObjFile`, `parseFace`, `CreateRays` and the loops of `Render` are methods.
- `Space` is a class whose methods reassign its two sequence fields.
- Images are `array2<RGBA>` buffers indexed `img[x, y]`.

The float geometry is a record of functions, `Optics`, so the model only assumes what these functions return. It covers:

- ray directions;
- `Face.Intersects`;
- light contributions;
- material colours.

`strconv.ParseFloat` and the `float32` narrowing are handled the same way, through `FloatConversions`.

Three behaviours of the code are easy to misread; the model follows the code:

- **Ray count and layout.** `CreateRays` starts from `make([]Ray, ResolutionY)` and appends to it. It returns `ResolutionY` zero rays, then `ResolutionY * max(ResolutionX, 0)` pixel rays, rows outer and columns inner. A negative `ResolutionX` leaves the inner loop empty, so only the zero rays remain.
- **Pixel position.** `Render` writes the colour of ray `i` at (`i % ResolutionX`, `i / ResolutionY`). The zero rays all target row 0. When `ResolutionX == ResolutionY`, the ray cast for pixel (x, y) is written at (x, y + 1) (`SquareShiftsOneRow`).
- **Colour addition.** `AddColors` adds `uint8` values, and `uint8` addition wraps around. Each channel is the sum modulo 256, and the `> 255` clamps can never fire.

## Model

| member | source | states |
|---|---|---|
| GoText.TrimSpace | obj-parser/main.go:45 | The trimmed line is empty exactly when the line is all white space; otherwise it starts and ends with a non-space character |
| GoText.TrimSpaceSlice | obj-parser/main.go:45 | The trimmed line is the slice of the line that starts after its leading white space |
| GoText.TrimSpaceRemovesSpace | obj-parser/main.go:45 | Everything trimmed off either end is white space |
| GoText.Fields | obj-parser/main.go:50 | Every field is non-empty and free of white space. When the line starts with a non-space character, the first field is its leading `Word` |
| GoText.Word | obj-parser/main.go:50 | The leading word is the longest prefix of the line without white space: it is followed by white space or by the end of the line |
| GoText.FieldsOfWord | obj-parser/main.go:50 | A non-empty run without white space is exactly one field |
| GoText.FieldsSpaceSplit | obj-parser/main.go:50 | Every white-space character separates fields: the fields of `a + [c] + b` are the fields of `a` followed by the fields of `b`. With `FieldsOfWord`, every field is a maximal run of non-space characters |
| GoText.FieldsConcat | obj-parser/main.go:50 | The fields, concatenated, are exactly the non-space characters of the line in order: nothing is lost, duplicated or reordered |
| GoText.Split | obj-parser/main.go:147-148 | `strings.Split` always returns at least one part, so `parts[0]` exists even for an empty corner |
| GoText.SplitPieces | obj-parser/main.go:147 | No part contains `/`, and joining the parts with `/` gives the corner back |
| GoText.SplitJoin | obj-parser/main.go:147 | Splitting `/`-joined separator-free parts returns exactly those parts (the inverse of `SplitPieces`) |
| GoText.ScanDigits | obj-parser/main.go:148 | The digit scan succeeds exactly when every character is a decimal digit |
| GoText.Atoi | obj-parser/main.go:148 | A successful result lies in the 64-bit range; a failure carries `NumError("Atoi", s)` |
| GoText.AtoiSpec | obj-parser/main.go:148 | `Atoi` succeeds if and only if the string is an optional sign followed by one or more digits whose value fits in 64 bits, and then it returns that value |
| GoText.AtoiItoa | obj-parser/main.go:148 | `Atoi` reads back every 64-bit integer written in decimal |
| GoText.Dec64 | obj-parser/main.go:152 | `vi - 1` on a 64-bit `int` is `vi - 1`, except that the smallest int wraps to the largest |
| ObjParser.ParseVertex | obj-parser/main.go:86-103 | Fewer than 4 fields is `InvalidVertex`. Otherwise it succeeds if and only if fields 1 to 3 all parse as floats, giving their `float32` narrowings. A failure reports the first field that does not parse |
| ObjParser.ParseTextureCoordinate | obj-parser/main.go:105-118 | Fewer than 3 fields is `InvalidTextureCoordinate`. Otherwise it succeeds if and only if fields 1 and 2 parse, giving those values. A failure reports the first bad field |
| ObjParser.ParseNormal | obj-parser/main.go:120-137 | Fewer than 4 fields is `InvalidNormal`. Otherwise it succeeds if and only if fields 1 to 3 parse, giving those values, kept at float64. A failure reports the first bad field |
| ObjParser.ExtraFieldsIgnored | obj-parser/main.go:86-137 | Fields beyond the 3 (or 2) coordinates never change the result of the three parsers |
| ObjParser.ParseIndex | obj-parser/main.go:148-152 | An index part parses if and only if it is an optional sign followed by decimal digits whose value fits in 64 bits. It gives that value minus 1, except that the smallest int wraps to the largest. A failure is `Atoi`'s error |
| ObjParser.ParseCorner | obj-parser/main.go:147-168 | A corner succeeds if and only if its vertex part parses and every present, non-empty texture or normal part parses. A texture index exists if and only if part 1 is present and non-empty, and a normal index likewise for part 2. Each index is what `ParseIndex` gives for its part: its value minus 1, with the smallest 64-bit int wrapping to the largest |
| ObjParser.ParseFace | obj-parser/main.go:139-172 | The loop returns `FaceOf(fields)`: the corners after `f`, parsed and appended in order, stopping at the first failing corner |
| ObjParser.FaceVertexIndices | obj-parser/main.go:146-152 | On success every corner parsed, and the vertex list holds exactly one index per corner, in order, each the one its corner parsed to |
| ObjParser.FaceOptionalIndices | obj-parser/main.go:154-168 | The texture and normal lists hold only the indices of the corners that have that part, in order, so they can be shorter than the vertex list |
| ObjParser.FaceFailure | obj-parser/main.go:146-169 | A face fails exactly when at least one of its corners fails |
| ObjParser.FaceFirstError | obj-parser/main.go:146-169 | The error of a failing face is the error of its first failing corner |
| ObjParser.DigitIndex | obj-parser/main.go:148-152 | A one-digit index `d` becomes `d - 1` |
| ObjParser.CornerWithoutTexture | obj-parser/main.go:154-168 | `7//3` gives vertex 6, no texture index and normal 2 |
| ObjParser.CornerWithAllIndices | obj-parser/main.go:147-168 | `1/2/3` gives vertex 0, texture 1 and normal 2 |
| ObjParser.CornerZeroIndex | obj-parser/main.go:148-152 | Index `0` is not rejected: it becomes vertex -1 |
| ObjParser.CornerWithoutVertex | obj-parser/main.go:147-151 | `/2` fails with `Atoi("")`'s error |
| ObjParser.Statement | obj-parser/main.go:45-50 | A line is skipped exactly when, trimmed, it is empty or starts with `#`. Otherwise its fields are non-empty and their first field (the keyword) does not start with `#` |
| ObjParser.ParseObjFile | obj-parser/main.go:34-84 | The line loop returns `ParseObj(lines)`: lines folded in order onto an empty `Obj` with `ParseLine`, aborting at the first error |
| ObjParser.StatementDispatch | obj-parser/main.go:51-76 | `v`, `vt`, `vn` and `f` each run their own parser and append the result to their own list of the `Obj`. A parser error is returned unchanged, and any other keyword leaves the `Obj` as it is |
| ObjParser.StatementFailure | obj-parser/main.go:51-76 | A statement fails exactly when its keyword is `v`, `vt`, `vn` or `f` and its parser fails, with that parser's error. Any other keyword is accepted |
| ObjParser.StatementElements | obj-parser/main.go:51-76 | A successful statement appends its parsed element to the list of its own keyword, and leaves the other lists unchanged |
| ObjParser.LineElements | obj-parser/main.go:44-77 | A successful line keeps every list's earlier entries and adds exactly the elements its statement parses to for that list |
| ObjParser.ParsedLists | obj-parser/main.go:44-77 | On success each list keeps its starting entries. What follows is one element per statement with its keyword, in file order, each what that statement parses to |
| ObjParser.ObjLists | obj-parser/main.go:44-83 | On success each list of the `Obj` holds one element per line with its keyword (so its length is that line count), in file order, each what the line parses to |
| ObjParser.LineFailure | obj-parser/main.go:45-76 | A line makes the parse fail exactly when it reports an error, and that error does not depend on what was parsed before |
| ObjParser.ObjFirstError | obj-parser/main.go:53-75 | A failing parse reports the error of the first line that reports one |
| ObjParser.ObjSuccess | obj-parser/main.go:44-83 | A successful parse has no line that reports an error |
| ObjParser.ObjFailure | obj-parser/main.go:44-83 | Parsing fails if and only if some line reports an error, so no later line can rescue or hide it |
| ObjParser.IgnoredLineKept | obj-parser/main.go:45-76 | A blank line, a comment or a statement with an unknown keyword leaves the `Obj` exactly as it was |
| ObjParser.IgnoredLineRemoved | obj-parser/main.go:45-76 | Deleting a blank, comment or unknown-keyword line never changes the result |
| Images.Uint8 | image.go:18-20 | `uint8(n)` keeps `n` when it is in 0..255 and is `n` modulo 256 in general |
| Images.NewRGBA | camera.go:77 | A new image has the requested width and height, and every pixel is transparent black |
| Images.Set | camera.go:105 | A write inside the bounds sets that one pixel; a write outside changes nothing; every other pixel keeps its value |
| Cameras.AddColors | camera.go:24-38 | Alpha is 255. Each channel is the sum when it is at most 255, and the sum minus 256 otherwise |
| Cameras.AddColorsChannel | camera.go:25-36 | Every colour channel of `AddColors` is the sum of the inputs modulo 256 |
| Cameras.AddColorsCommutative | camera.go:24-38 | `AddColors(c1, c2) == AddColors(c2, c1)` |
| Cameras.AddColorsAssociative | camera.go:24-38 | Adding three colours gives the same result whichever pair is added first |
| Cameras.AccumulateChannels | camera.go:100-103 | Folding `AddColors` over colours gives each channel the starting value plus the channel's sum, modulo 256. Alpha is 255 once any colour was added |
| Cameras.RowRays | camera.go:129-132 | The inner loop's rays for row `y`: ray `x` starts at the camera origin and goes in direction `(x, y)` |
| Cameras.GridRays | camera.go:128-133 | Rows outer, columns inner: ray `k` of the first rows belongs to pixel (`k % ResolutionX`, `k / ResolutionX`) |
| Cameras.RayGrid | camera.go:126-135 | There are `ResolutionY + ResolutionY * max(ResolutionX, 0)` rays. The first `ResolutionY` are zero rays; ray `k` after them belongs to pixel `p % ResolutionX`, `p / ResolutionX` with `p = k - ResolutionY` |
| Cameras.CreateRays | camera.go:126-135 | The nested loops return exactly `RayGrid` |
| Cameras.FaceHitsMembers | camera.go:83-89 | A hit is collected for a geometry if and only if its face is one of that geometry's faces and that face reported it |
| Cameras.HitsMembers | camera.go:81-91 | A hit is collected for a ray if and only if it comes from a face of a geometry of the scene that reported it |
| Cameras.FaceHitsAppend | camera.go:83-89 | Faces are scanned in order: the hits of two runs of faces are the first run's hits followed by the second's |
| Cameras.HitsAppend | camera.go:81-91 | Geometries are scanned in order: the hits of two runs of geometries are the first run's hits followed by the second's |
| Cameras.CollectHits | camera.go:80-91 | The two collection loops return exactly `HitsOf`: hits by geometry, then by face |
| Cameras.NearestIndex | camera.go:94-99 | The selected hit has a distance no greater than any other hit's, and every earlier hit is strictly farther (the strict `<` keeps the first of equals) |
| Cameras.NearestUnique | camera.go:94-99 | At most one index has that property, so it determines the selected hit |
| Cameras.NearestHit | camera.go:94-99 | The selection loop returns the hit at `NearestIndex` |
| Cameras.ShadeChannels | camera.go:93-104 | The shaded colour is opaque. Each channel is the sum of the lights' contributions and the material colour, modulo 256 |
| Cameras.ShadeHit | camera.go:93-104 | The light loop and the material addition return `Shade`: `AddColors` folded over the light contributions in light order, starting from the zero colour, then the material colour |
| Cameras.TraceRays | camera.go:79-107 | After the loop over the rays, every pixel is what the writes of the rays with a hit, in ray order, leave in the zero-valued image |
| Cameras.Render | camera.go:76-109 | The image is `ResolutionX` by `ResolutionY`. Each pixel is what the writes of the rays of `RayGrid` with a hit, in order and each at (`i % ResolutionX`, `i / ResolutionY`), leave in a transparent image |
| Cameras.PixelUntouched | camera.go:77-92 | A pixel that no ray with a hit targets stays transparent black |
| Cameras.LastWriteWins | camera.go:79-105 | A pixel holds the colour of the last ray with a hit that targets it |
| Cameras.RayColorOpaque | camera.go:92-104 | A ray with a hit writes an opaque colour |
| Cameras.PixelOpaqueOrUntouched | camera.go:79-106 | When every written colour is opaque, every pixel is transparent black or opaque |
| Cameras.RenderedPixel | camera.go:76-107 | Every pixel of a rendered image is transparent black or opaque |
| Cameras.ZeroRaysTargetRowZero | camera.go:127 | The first `ResolutionY` rays are zero rays, and ray `i` among them targets row 0 |
| Cameras.SquareShiftsOneRow | camera.go:126-131 | With `ResolutionX == ResolutionY`, the ray cast for pixel (x, y) is written at (x, y + 1) |
| Scene.Space.constructor | space.go:3-6 | A new `Space` has no geometries and no lights |
| Scene.Space.AddGeometry | space.go:8-10 | The geometry is appended at the end, earlier geometries keep their positions, and the lights are unchanged |
| Scene.Space.AddLight | space.go:12-14 | The light is appended at the end, earlier lights keep their positions, and the geometries are unchanged |
| Scene.AddGeometryTwice | space.go:8-10 | Adding the same geometry twice gives two entries: there is no deduplication |
| Scene.AddLightTwice | space.go:12-14 | Adding the same light twice gives two entries |
| SampleImage.SampleColor | image.go:18-21 | Red is `(x/4) % 255`, green `(y/4) % 255` and blue `(x*y/16) % 255`, each at most 254. Alpha is 255 |
| SampleImage.RedAndGreenSeparate | image.go:18-19 | Red depends only on the column and green only on the row |
| SampleImage.CreateSampleImage | image.go:10-26 | The image is 1024 by 1024 and every pixel holds `SampleColor(x, y)`. The points are written in row-major order, 1024 × 1024 writes |
| SampleImage.EachPointOnce | image.go:16-22 | In that order of writes, every pixel is written exactly once |

## Left out

- File handling: `os.Open`, `bufio.Scanner` and `scanner.Err` in `ParseObjFile`. The file is given as its sequence of lines, already split.
- Text encoding: strings are sequences of decoded characters. Invalid UTF-8 and `bufio.Scanner`'s 64 KiB line limit are not modelled.
- `strconv.ParseFloat` and the `float32` narrowing are uninterpreted functions (`FloatConversions`). Whether a coordinate parses, and the value it parses to, are not modelled.
- `NumError.Err`: the cause (`ErrSyntax` or `ErrRange`) of a failed conversion is not recorded. `Atoi`'s range check is modelled.
- ObjParser.ParseFace: on error the Go function also returns an empty `Face`, which its only caller discards. The model returns the error alone.
- `Obj.Vertices`: its `float32` vectors are `Vec3` of `real`.
- The float geometry is the `Optics` record of uninterpreted functions: `CalculatePixelPosition`, `CalculateFocalLength`, `calculateRayDirection`, `Face.Intersects` and `Light.CalculateColorContribution`. NaN distances and float rounding are therefore not modelled.
- Cameras.CreateRays: a negative `ResolutionY` makes `make` panic. It is excluded by a precondition.
- Cameras.Render: a `ResolutionX` of 0 panics on the first pixel write. A negative resolution gives, after `image.Rect` puts its corners in order, bounds that start below 0, which an `array2` cannot hold. Both are excluded by a precondition.
- Cameras.TraceRays: requires a positive width, and a positive height when there are rays. This is what `Render` guarantees it.
- `SaveImage` and PNG encoding, including the `SaveImage` call that ends `Render`. `Render` returns the image instead of saving it.
- The type inconsistencies of package `main` are not reconciled: undefined `Face`, `Material.Color` used as a colour, and call arities. Geometries, faces and lights are type parameters, reached only through `Optics`.
- Scene.Space: the Go lists hold pointers to copies of the added values; the model holds the values. Aliasing between entries is not modelled.
- `main.go`, `material.go`, and the data-only `Box`, `Sphere` and `Plane` records.
