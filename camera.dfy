/** `camera.go`: colour arithmetic, the rays a camera casts, and the render loop that finds the
    nearest hit of every ray, shades it with the lights and writes a pixel. The float geometry
    (pixel positions, ray directions, face intersection, light contribution) enters through an
    `Optics` record of functions. */
module Cameras {
  import opened Wrappers
  import opened Vectors
  import opened Images
  import opened Scene

  // ---------------------------------------------------------------- colours

  /** `AddColors`: each channel is the `uint8` sum of the two, alpha is 255. A `uint8` sum wraps
      around, so it is never above 255 and the clamps of the Go code are never taken. */
  function AddColors(c1: RGBA, c2: RGBA): (c: RGBA)
    ensures c.a == 255
    ensures c1.r + c2.r <= 255 ==> c.r == c1.r + c2.r
    ensures c1.r + c2.r > 255 ==> c.r == c1.r + c2.r - 256
    ensures c1.g + c2.g <= 255 ==> c.g == c1.g + c2.g
    ensures c1.g + c2.g > 255 ==> c.g == c1.g + c2.g - 256
    ensures c1.b + c2.b <= 255 ==> c.b == c1.b + c2.b
    ensures c1.b + c2.b > 255 ==> c.b == c1.b + c2.b - 256
  {
    var r := Uint8(c1.r + c2.r);
    var r := if r > 255 then 255 else r;
    var g := Uint8(c1.g + c2.g);
    var g := if g > 255 then 255 else g;
    var b := Uint8(c1.b + c2.b);
    var b := if b > 255 then 255 else b;
    RGBA(r, g, b, 255)
  }

  datatype Channel = Red | Green | Blue

  function Get(c: RGBA, ch: Channel): Byte {
    match ch
    case Red => c.r
    case Green => c.g
    case Blue => c.b
  }

  /** Every colour channel of `AddColors` is the sum of the two modulo 256. */
  lemma AddColorsChannel(c1: RGBA, c2: RGBA, ch: Channel)
    ensures Get(AddColors(c1, c2), ch) == (Get(c1, ch) + Get(c2, ch)) % 256
  {
  }

  lemma AddColorsCommutative(c1: RGBA, c2: RGBA)
    ensures AddColors(c1, c2) == AddColors(c2, c1)
  {
  }

  lemma AddColorsAssociative(c1: RGBA, c2: RGBA, c3: RGBA)
    ensures AddColors(AddColors(c1, c2), c3) == AddColors(c1, AddColors(c2, c3))
  {
  }

  /** `c` followed by `AddColors` with each of `cs`, left to right. */
  function Accumulate(c: RGBA, cs: seq<RGBA>): RGBA {
    if cs == [] then c else AddColors(Accumulate(c, cs[..|cs| - 1]), cs[|cs| - 1])
  }

  /** The sum of one channel over `cs`. */
  function Sum(cs: seq<RGBA>, ch: Channel): nat {
    if cs == [] then 0 else Sum(cs[..|cs| - 1], ch) + Get(cs[|cs| - 1], ch)
  }

  /** Accumulating colours adds each channel modulo 256, and the alpha is 255 once anything
      has been added. */
  lemma {:induction false} AccumulateChannels(c: RGBA, cs: seq<RGBA>, ch: Channel)
    ensures Get(Accumulate(c, cs), ch) == (Get(c, ch) + Sum(cs, ch)) % 256
    ensures cs != [] ==> Accumulate(c, cs).a == 255
  {
    if cs != [] {
      var init, last := cs[..|cs| - 1], cs[|cs| - 1];
      var before := Accumulate(c, init);
      AccumulateChannels(c, init, ch);
      AddColorsChannel(before, last, ch);
      var total := Get(c, ch) + Sum(init, ch);
      ModSum(total, Get(last, ch));
      assert Accumulate(c, cs) == AddColors(before, last);
      assert Get(c, ch) + Sum(cs, ch) == total + Get(last, ch);
    }
  }

  lemma ModSum(a: nat, b: nat)
    ensures (a % 256 + b) % 256 == (a + b) % 256
  {
    var q := a / 256;
    assert a == q * 256 + a % 256;
    assert a + b == (a % 256 + b) + q * 256;
  }

  // ---------------------------------------------------------------- rays

  datatype Ray = Ray(origin: Vec3, direction: Vec3)

  /** The zero value `Ray{}`. */
  const ZeroRay: Ray := Ray(Zero, Zero)

  /** The fields of `Camera` that the modelled code reads; the others only feed the pixel
      positions, which are part of `Optics`. */
  datatype Camera = Camera(origin: Vec3, resolutionX: int, resolutionY: int)

  /** The number of pixels in a row that `CreateRays` visits: none for a resolution below 1. */
  function RowLength(cam: Camera): nat {
    if cam.resolutionX > 0 then cam.resolutionX else 0
  }

  /** The rays of the first `n` pixels of row `y`, left to right. */
  function RowRays(cam: Camera, direction: (int, int) -> Vec3, y: int, n: nat): (rays: seq<Ray>)
    ensures |rays| == n
    ensures forall x :: 0 <= x < n ==> rays[x] == Ray(cam.origin, direction(x, y))
  {
    if n == 0 then [] else RowRays(cam, direction, y, n - 1) + [Ray(cam.origin, direction(n - 1, y))]
  }

  /** The rays of the first `rows` rows, row by row. Ray `k` belongs to pixel
      (`k % RowLength`, `k / RowLength`). */
  function GridRays(cam: Camera, direction: (int, int) -> Vec3, rows: nat): (rays: seq<Ray>)
    ensures |rays| == rows * RowLength(cam)
    ensures forall k :: 0 <= k < |rays| ==>
      rays[k] == Ray(cam.origin, direction(k % RowLength(cam), k / RowLength(cam)))
  {
    if rows == 0 then []
    else
      var before := GridRays(cam, direction, rows - 1);
      var row := RowRays(cam, direction, rows - 1, RowLength(cam));
      var w := RowLength(cam);
      assert forall k :: |before| <= k < |before| + |row| ==>
        k % w == k - |before| && k / w == rows - 1 by {
        forall k | |before| <= k < |before| + |row| ensures k % w == k - |before| && k / w == rows - 1 {
          RowMajor(k - |before|, rows - 1, w);
        }
      }
      before + row
  }

  /** What `CreateRays` returns: `make([]Ray, ResolutionY)` gives `ResolutionY` zero rays, and
      the loops append one ray per pixel after them, rows outer and columns inner. */
  function RayGrid(cam: Camera, direction: (int, int) -> Vec3): (rays: seq<Ray>)
    requires cam.resolutionY >= 0
    ensures |rays| == cam.resolutionY + cam.resolutionY * RowLength(cam)
    ensures forall k :: 0 <= k < cam.resolutionY ==> rays[k] == ZeroRay
    ensures forall k :: cam.resolutionY <= k < |rays| ==>
      var p := k - cam.resolutionY;
      rays[k] == Ray(cam.origin, direction(p % RowLength(cam), p / RowLength(cam)))
  {
    var zeros := seq(cam.resolutionY, _ => ZeroRay);
    var grid := GridRays(cam, direction, cam.resolutionY);
    assert forall k :: cam.resolutionY <= k < |zeros + grid| ==>
      (zeros + grid)[k] == grid[k - cam.resolutionY];
    zeros + grid
  }

  /** `CreateRays`, with `calculateRayDirection(camera, x, y)` as `direction(x, y)`. A negative
      `ResolutionY` makes `make` panic; it is excluded. */
  method CreateRays(cam: Camera, direction: (int, int) -> Vec3) returns (rays: seq<Ray>)
    requires cam.resolutionY >= 0
    ensures rays == RayGrid(cam, direction)
  {
    rays := seq(cam.resolutionY, _ => ZeroRay);
    ghost var zeros := rays;
    for y := 0 to cam.resolutionY
      invariant rays == zeros + GridRays(cam, direction, y)
    {
      for x := 0 to RowLength(cam)
        invariant rays == zeros + GridRays(cam, direction, y) + RowRays(cam, direction, y, x)
      {
        rays := rays + [Ray(cam.origin, direction(x, y))];
        assert RowRays(cam, direction, y, x + 1) == RowRays(cam, direction, y, x) + [Ray(cam.origin, direction(x, y))];
      }
      assert GridRays(cam, direction, y + 1) == GridRays(cam, direction, y) + RowRays(cam, direction, y, RowLength(cam));
    }
  }

  // ---------------------------------------------------------------- hits

  /** The result of `Face.Intersects(ray, vertices)`. */
  datatype Intersection = Intersection(hit: bool, distance: real, point: Vec3)

  /** The float geometry of the renderer, as functions:
      `direction(x, y)` is `calculateRayDirection(camera, x, y)`,
      `faces(g)` the faces of geometry `g`,
      `intersects(f, ray, g)` what face `f` of `g` reports for `ray`,
      `contribution(l, g, p, f)` what light `l` adds at point `p` of face `f` of `g`, and
      `materialColor(g)` the colour of the material of `g`. */
  datatype Optics<!G, !F, !L> = Optics(
    direction: (int, int) -> Vec3,
    faces: G -> seq<F>,
    intersects: (F, Ray, G) -> Intersection,
    contribution: (L, G, Vec3, F) -> RGBA,
    materialColor: G -> RGBA)

  /** `RayFaceIntersection`, without the fields the render loop never sets. */
  datatype Hit<G, F> = Hit(point: Vec3, distance: real, face: F, geometry: G)

  /** The hits of `ray` on the faces `fs` of geometry `g`, in face order. */
  function FaceHits<G, F, L>(g: G, fs: seq<F>, ray: Ray, o: Optics<G, F, L>): seq<Hit<G, F>> {
    if fs == [] then []
    else
      var f := fs[|fs| - 1];
      var i := o.intersects(f, ray, g);
      FaceHits(g, fs[..|fs| - 1], ray, o) + (if i.hit then [Hit(i.point, i.distance, f, g)] else [])
  }

  /** The hits of `ray` on every face of every geometry of `gs`, by geometry, then by face. */
  function HitsOf<G, F, L>(gs: seq<G>, ray: Ray, o: Optics<G, F, L>): seq<Hit<G, F>> {
    if gs == [] then []
    else
      var g := gs[|gs| - 1];
      HitsOf(gs[..|gs| - 1], ray, o) + FaceHits(g, o.faces(g), ray, o)
  }

  /** `h` is what face `h.face` of `h.geometry` reports for `ray`, and it reports a hit. */
  predicate Reported<G, F, L>(h: Hit<G, F>, ray: Ray, o: Optics<G, F, L>) {
    o.intersects(h.face, ray, h.geometry) == Intersection(true, h.distance, h.point)
  }

  /** The hits on the faces of `g` are the faces of `fs` that report a hit, and nothing else. */
  lemma {:induction false} FaceHitsMembers<G, F, L>(g: G, fs: seq<F>, ray: Ray, o: Optics<G, F, L>, h: Hit<G, F>)
    ensures h in FaceHits(g, fs, ray, o) <==> h.geometry == g && h.face in fs && Reported(h, ray, o)
  {
    if fs != [] {
      var init := fs[..|fs| - 1];
      FaceHitsMembers(g, init, ray, o, h);
      assert fs == init + [fs[|fs| - 1]];
    }
  }

  /** The collected hits are the faces of the geometries that report a hit, and nothing else. */
  lemma {:induction false} HitsMembers<G, F, L>(gs: seq<G>, ray: Ray, o: Optics<G, F, L>, h: Hit<G, F>)
    ensures h in HitsOf(gs, ray, o) <==>
      h.geometry in gs && h.face in o.faces(h.geometry) && Reported(h, ray, o)
  {
    if gs != [] {
      var init, g := gs[..|gs| - 1], gs[|gs| - 1];
      HitsMembers(init, ray, o, h);
      FaceHitsMembers(g, o.faces(g), ray, o, h);
      assert gs == init + [g];
      if h.geometry in gs && h.face in o.faces(h.geometry) && Reported(h, ray, o) && h.geometry != g {
        assert h.geometry in init;
      }
    }
  }

  /** Faces are scanned in order: the hits on `fs1 + fs2` are those on `fs1`, then those on `fs2`. */
  lemma {:induction false} FaceHitsAppend<G, F, L>(g: G, fs1: seq<F>, fs2: seq<F>, ray: Ray, o: Optics<G, F, L>)
    ensures FaceHits(g, fs1 + fs2, ray, o) == FaceHits(g, fs1, ray, o) + FaceHits(g, fs2, ray, o)
    decreases |fs2|
  {
    if fs2 == [] {
      assert fs1 + fs2 == fs1;
    } else {
      var init := fs2[..|fs2| - 1];
      FaceHitsAppend(g, fs1, init, ray, o);
      assert (fs1 + fs2)[..|fs1 + fs2| - 1] == fs1 + init;
    }
  }

  /** Geometries are scanned in order: the hits on `gs1 + gs2` are those on `gs1`, then those
      on `gs2`. */
  lemma {:induction false} HitsAppend<G, F, L>(gs1: seq<G>, gs2: seq<G>, ray: Ray, o: Optics<G, F, L>)
    ensures HitsOf(gs1 + gs2, ray, o) == HitsOf(gs1, ray, o) + HitsOf(gs2, ray, o)
    decreases |gs2|
  {
    if gs2 == [] {
      assert gs1 + gs2 == gs1;
    } else {
      var init := gs2[..|gs2| - 1];
      HitsAppend(gs1, init, ray, o);
      assert (gs1 + gs2)[..|gs1 + gs2| - 1] == gs1 + init;
    }
  }

  /** The two loops of `Render` that collect the hits of one ray. */
  method CollectHits<G, F, L>(gs: seq<G>, ray: Ray, o: Optics<G, F, L>) returns (hits: seq<Hit<G, F>>)
    ensures hits == HitsOf(gs, ray, o)
  {
    hits := [];
    for gi := 0 to |gs|
      invariant hits == HitsOf(gs[..gi], ray, o)
    {
      var g := gs[gi];
      var fs := o.faces(g);
      for fi := 0 to |fs|
        invariant hits == HitsOf(gs[..gi], ray, o) + FaceHits(g, fs[..fi], ray, o)
      {
        var i := o.intersects(fs[fi], ray, g);
        if i.hit {
          hits := hits + [Hit(i.point, i.distance, fs[fi], g)];
        }
        assert fs[..fi + 1][..fi] == fs[..fi];
      }
      assert fs[..|fs|] == fs;
      assert gs[..gi + 1][..gi] == gs[..gi];
    }
    assert gs[..|gs|] == gs;
  }

  // ---------------------------------------------------------------- nearest hit

  /** `hits[k]` has the least distance of all, and no earlier hit has that distance. */
  ghost predicate IsNearest<G, F>(hits: seq<Hit<G, F>>, k: int) {
    && 0 <= k < |hits|
    && (forall j :: 0 <= j < |hits| ==> hits[k].distance <= hits[j].distance)
    && (forall j :: 0 <= j < k ==> hits[j].distance > hits[k].distance)
  }

  /** The index the selection loop of `Render` ends on. */
  function NearestIndex<G, F>(hits: seq<Hit<G, F>>): (k: nat)
    requires hits != []
    ensures IsNearest(hits, k)
  {
    if |hits| == 1 then 0
    else
      var k := NearestIndex(hits[..|hits| - 1]);
      if hits[|hits| - 1].distance < hits[k].distance then |hits| - 1 else k
  }

  /** At most one index is nearest, so `IsNearest` determines the selected hit. */
  lemma NearestUnique<G, F>(hits: seq<Hit<G, F>>, k1: int, k2: int)
    requires IsNearest(hits, k1) && IsNearest(hits, k2)
    ensures k1 == k2
  {
    assert hits[k1].distance == hits[k2].distance;
  }

  /** The selection loop: start with the first hit and switch to any strictly closer one. */
  method NearestHit<G, F>(hits: seq<Hit<G, F>>) returns (nearest: Hit<G, F>)
    requires hits != []
    ensures nearest == hits[NearestIndex(hits)]
  {
    nearest := hits[0];
    ghost var k := 0;
    for j := 0 to |hits|
      invariant 0 <= k < |hits| && nearest == hits[k]
      invariant j == 0 ==> k == 0
      invariant j > 0 ==> k == NearestIndex(hits[..j])
    {
      if hits[j].distance < nearest.distance {
        nearest := hits[j];
        k := j;
      }
      assert hits[..j + 1][..j] == hits[..j];
    }
    assert hits[..|hits|] == hits;
  }

  // ---------------------------------------------------------------- shading

  /** What each light contributes at hit `h`, in light order. */
  function Contributions<G, F, L>(lights: seq<L>, h: Hit<G, F>, o: Optics<G, F, L>): (cs: seq<RGBA>)
    ensures |cs| == |lights|
    ensures forall j :: 0 <= j < |lights| ==> cs[j] == o.contribution(lights[j], h.geometry, h.point, h.face)
  {
    seq(|lights|, j requires 0 <= j < |lights| => o.contribution(lights[j], h.geometry, h.point, h.face))
  }

  /** The colour written for hit `h`: the light contributions added to the zero colour in light
      order, then the material colour. */
  function Shade<G, F, L>(lights: seq<L>, h: Hit<G, F>, o: Optics<G, F, L>): RGBA {
    AddColors(Accumulate(Transparent, Contributions(lights, h, o)), o.materialColor(h.geometry))
  }

  /** A shaded colour is opaque, and each channel is the sum of the contributions and the
      material colour, modulo 256. */
  lemma ShadeChannels<G, F, L>(lights: seq<L>, h: Hit<G, F>, o: Optics<G, F, L>, ch: Channel)
    ensures Shade(lights, h, o).a == 255
    ensures Get(Shade(lights, h, o), ch)
      == (Sum(Contributions(lights, h, o), ch) + Get(o.materialColor(h.geometry), ch)) % 256
  {
    var cs := Contributions(lights, h, o);
    var lit, material := Accumulate(Transparent, cs), o.materialColor(h.geometry);
    AccumulateChannels(Transparent, cs, ch);
    assert Get(lit, ch) == Sum(cs, ch) % 256;
    AddColorsChannel(lit, material, ch);
    ModSum(Sum(cs, ch), Get(material, ch));
    assert Shade(lights, h, o) == AddColors(lit, material);
  }

  /** The light loop of `Render` followed by the material colour. */
  method ShadeHit<G, F, L>(lights: seq<L>, h: Hit<G, F>, o: Optics<G, F, L>) returns (c: RGBA)
    ensures c == Shade(lights, h, o)
  {
    ghost var cs := Contributions(lights, h, o);
    c := Transparent;
    for j := 0 to |lights|
      invariant c == Accumulate(Transparent, cs[..j])
    {
      c := AddColors(c, o.contribution(lights[j], h.geometry, h.point, h.face));
      assert cs[..j + 1][..j] == cs[..j];
    }
    assert cs[..|lights|] == cs;
    c := AddColors(c, o.materialColor(h.geometry));
  }

  // ---------------------------------------------------------------- render

  /** The colour ray `ray` writes, or None when it hits nothing and writes nothing. */
  function RayColor<G, F, L>(ray: Ray, gs: seq<G>, lights: seq<L>, o: Optics<G, F, L>): Option<RGBA> {
    var hits := HitsOf(gs, ray, o);
    if hits == [] then None else Some(Shade(lights, hits[NearestIndex(hits)], o))
  }

  function RayColors<G, F, L>(rays: seq<Ray>, gs: seq<G>, lights: seq<L>, o: Optics<G, F, L>): (cs: seq<Option<RGBA>>)
    ensures |cs| == |rays|
    ensures forall i :: 0 <= i < |rays| ==> cs[i] == RayColor(rays[i], gs, lights, o)
  {
    seq(|rays|, i requires 0 <= i < |rays| => RayColor(rays[i], gs, lights, o))
  }

  /** The pixel ray `i` is written to: (`i % ResolutionX`, `i / ResolutionY`). */
  predicate Targets(i: nat, width: int, height: int, x: int, y: int)
    requires width > 0 && height > 0
  {
    i % width == x && i / height == y
  }

  /** Pixel (x, y) after the writes of `colors`, in order, into a transparent image. */
  function PixelAfter(colors: seq<Option<RGBA>>, width: int, height: int, x: int, y: int): RGBA
    requires width > 0 && (colors != [] ==> height > 0)
  {
    if colors == [] then Transparent
    else
      var i := |colors| - 1;
      if colors[i].Some? && Targets(i, width, height, x, y) then colors[i].value
      else PixelAfter(colors[..i], width, height, x, y)
  }

  /** One more write: the pixel it targets takes its colour, every other pixel keeps its own. */
  lemma PixelAfterStep(colors: seq<Option<RGBA>>, i: nat, width: int, height: int, x: int, y: int)
    requires i < |colors| && width > 0 && height > 0
    ensures PixelAfter(colors[..i + 1], width, height, x, y)
      == if colors[i].Some? && Targets(i, width, height, x, y) then colors[i].value
         else PixelAfter(colors[..i], width, height, x, y)
  {
    assert colors[..i + 1][..i] == colors[..i];
  }

  /** `Render` without the final `SaveImage`: the image it would save. A `ResolutionX` of 0
      panics on the first write and a negative resolution is not a valid image; both are
      excluded. */
  method Render<G, F, L>(cam: Camera, s: Space<G, L>, o: Optics<G, F, L>) returns (img: array2<RGBA>)
    requires cam.resolutionX > 0 && cam.resolutionY >= 0
    ensures fresh(img) && img.Length0 == cam.resolutionX && img.Length1 == cam.resolutionY
    ensures forall x, y :: 0 <= x < img.Length0 && 0 <= y < img.Length1 ==>
      img[x, y] == PixelAfter(RayColors(RayGrid(cam, o.direction), s.geometries, s.lights, o),
                              cam.resolutionX, cam.resolutionY, x, y)
  {
    img := NewRGBA(cam.resolutionX, cam.resolutionY);
    var rays := CreateRays(cam, o.direction);
    TraceRays(img, rays, s, o);
  }

  /** The loop of `Render` over the rays: the nearest hit of ray `i`, if any, is shaded and
      written at (`i % ResolutionX`, `i / ResolutionY`) of the zero-valued image `img`. */
  method TraceRays<G, F, L>(img: array2<RGBA>, rays: seq<Ray>, s: Space<G, L>, o: Optics<G, F, L>)
    requires img.Length0 > 0 && (rays != [] ==> img.Length1 > 0)
    requires forall x, y :: 0 <= x < img.Length0 && 0 <= y < img.Length1 ==> img[x, y] == Transparent
    modifies img
    ensures forall x, y :: 0 <= x < img.Length0 && 0 <= y < img.Length1 ==>
      img[x, y] == PixelAfter(RayColors(rays, s.geometries, s.lights, o), img.Length0, img.Length1, x, y)
  {
    var width, height := img.Length0, img.Length1;
    ghost var colors := RayColors(rays, s.geometries, s.lights, o);
    for i := 0 to |rays|
      invariant forall x, y :: 0 <= x < width && 0 <= y < height ==>
        img[x, y] == PixelAfter(colors[..i], width, height, x, y)
    {
      var hits := CollectHits(s.geometries, rays[i], o);
      if |hits| > 0 {
        var nearest := NearestHit(hits);
        var finalColor := ShadeHit(s.lights, nearest, o);
        assert colors[i] == Some(finalColor);
        Set(img, i % width, i / height, finalColor);
      } else {
        assert colors[i] == None;
      }
      forall x, y | 0 <= x < width && 0 <= y < height
        ensures img[x, y] == PixelAfter(colors[..i + 1], width, height, x, y)
      {
        PixelAfterStep(colors, i, width, height, x, y);
      }
    }
    assert colors[..|rays|] == colors;
  }

  /** A pixel no ray writes keeps the zero value: transparent black. */
  lemma {:induction false} PixelUntouched(colors: seq<Option<RGBA>>, width: int, height: int, x: int, y: int)
    requires width > 0 && (colors != [] ==> height > 0)
    requires forall i :: 0 <= i < |colors| && colors[i].Some? ==> !Targets(i, width, height, x, y)
    ensures PixelAfter(colors, width, height, x, y) == Transparent
  {
    if colors != [] {
      var n := |colors| - 1;
      PixelUntouched(colors[..n], width, height, x, y);
    }
  }

  /** A pixel holds the colour of the last ray that writes it. */
  lemma {:induction false} LastWriteWins(colors: seq<Option<RGBA>>, width: int, height: int, x: int, y: int, i: nat)
    requires width > 0 && height > 0 && i < |colors|
    requires colors[i].Some? && Targets(i, width, height, x, y)
    requires forall j :: i < j < |colors| && colors[j].Some? ==> !Targets(j, width, height, x, y)
    ensures PixelAfter(colors, width, height, x, y) == colors[i].value
  {
    var n := |colors| - 1;
    if n > i {
      LastWriteWins(colors[..n], width, height, x, y, i);
    }
  }

  /** A ray that hits something writes an opaque colour. */
  lemma RayColorOpaque<G, F, L>(ray: Ray, gs: seq<G>, lights: seq<L>, o: Optics<G, F, L>)
    ensures RayColor(ray, gs, lights, o).Some? ==> RayColor(ray, gs, lights, o).value.a == 255
  {
    var hits := HitsOf(gs, ray, o);
    if hits != [] {
      ShadeChannels(lights, hits[NearestIndex(hits)], o, Red);
    }
  }

  /** When every written colour is opaque, every pixel is either untouched or opaque. */
  lemma {:induction false} PixelOpaqueOrUntouched(colors: seq<Option<RGBA>>, width: int, height: int, x: int, y: int)
    requires width > 0 && (colors != [] ==> height > 0)
    requires forall i :: 0 <= i < |colors| && colors[i].Some? ==> colors[i].value.a == 255
    ensures var c := PixelAfter(colors, width, height, x, y); c == Transparent || c.a == 255
  {
    if colors != [] {
      PixelOpaqueOrUntouched(colors[..|colors| - 1], width, height, x, y);
    }
  }

  /** Every pixel of a rendered image is transparent black or opaque. */
  lemma RenderedPixel<G, F, L>(cam: Camera, gs: seq<G>, lights: seq<L>, o: Optics<G, F, L>, x: int, y: int)
    requires cam.resolutionX > 0 && cam.resolutionY >= 0
    ensures var c := PixelAfter(RayColors(RayGrid(cam, o.direction), gs, lights, o),
                                cam.resolutionX, cam.resolutionY, x, y);
      c == Transparent || c.a == 255
  {
    var rays := RayGrid(cam, o.direction);
    var colors := RayColors(rays, gs, lights, o);
    forall i | 0 <= i < |colors| && colors[i].Some? ensures colors[i].value.a == 255 {
      RayColorOpaque(rays[i], gs, lights, o);
    }
    PixelOpaqueOrUntouched(colors, cam.resolutionX, cam.resolutionY, x, y);
  }

  /** The zero rays at the front are all written into row 0. */
  lemma ZeroRaysTargetRowZero(cam: Camera, direction: (int, int) -> Vec3, i: nat)
    requires cam.resolutionX > 0 && i < cam.resolutionY
    ensures RayGrid(cam, direction)[i] == ZeroRay
    ensures Targets(i, cam.resolutionX, cam.resolutionY, i % cam.resolutionX, 0)
  {
  }

  /** With a square resolution, the ray cast for pixel (x, y) is written one row lower, at
      (x, y + 1): the `ResolutionY` zero rays in front shift every pixel ray by one row. */
  lemma SquareShiftsOneRow(cam: Camera, direction: (int, int) -> Vec3, x: int, y: int)
    requires cam.resolutionX == cam.resolutionY > 0
    requires 0 <= x < cam.resolutionX && 0 <= y < cam.resolutionY
    ensures var w := cam.resolutionX;
      var k := w + y * w + x;
      && k < |RayGrid(cam, direction)|
      && RayGrid(cam, direction)[k] == Ray(cam.origin, direction(x, y))
      && Targets(k, w, w, x, y + 1)
  {
    var w := cam.resolutionX;
    var p := y * w + x;
    RowMajor(x, y, w);
    BelowSquare(x, y, w);
    assert RayGrid(cam, direction)[w + p] == Ray(cam.origin, direction(p % w, p / w));
    NextRow(x, y, w);
  }

  lemma BelowSquare(x: int, y: nat, w: int)
    requires 0 <= x < w && y < w
    ensures y * w + x < w * w
  {
    AtLeastOnce(w - y, w);
    assert w * w == y * w + (w - y) * w;
  }

  lemma NextRow(x: int, y: nat, w: int)
    requires 0 <= x < w
    ensures (w + y * w + x) % w == x && (w + y * w + x) / w == y + 1
  {
    RowMajor(x, y + 1, w);
    assert w + y * w + x == (y + 1) * w + x;
  }
}
