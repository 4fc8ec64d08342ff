/** `space.go`: the scene the camera renders, two append-only lists. Geometries and lights are
    opaque here; their behaviour enters only through the camera's optics. */
module Scene {

  class Space<G, L> {
    var geometries: seq<G>
    var lights: seq<L>

    /** The zero value `Space{}`: no geometries and no lights. */
    constructor ()
      ensures geometries == [] && lights == []
    {
      geometries := [];
      lights := [];
    }

    /** Appends `g` at the end; the lights and the earlier geometries stay as they were. */
    method AddGeometry(g: G)
      modifies this
      ensures geometries == old(geometries) + [g]
      ensures lights == old(lights)
    {
      geometries := geometries + [g];
    }

    /** Appends `l` at the end; the geometries and the earlier lights stay as they were. */
    method AddLight(l: L)
      modifies this
      ensures lights == old(lights) + [l]
      ensures geometries == old(geometries)
    {
      lights := lights + [l];
    }
  }

  /** Adding the same geometry twice keeps both copies: there is no deduplication. */
  method AddGeometryTwice<G, L>(s: Space<G, L>, g: G)
    modifies s
    ensures |s.geometries| == |old(s.geometries)| + 2
    ensures s.geometries[|old(s.geometries)|] == g && s.geometries[|old(s.geometries)| + 1] == g
    ensures s.geometries[..|old(s.geometries)|] == old(s.geometries)
    ensures s.lights == old(s.lights)
  {
    s.AddGeometry(g);
    s.AddGeometry(g);
  }

  /** Adding the same light twice keeps both copies. */
  method AddLightTwice<G, L>(s: Space<G, L>, l: L)
    modifies s
    ensures |s.lights| == |old(s.lights)| + 2
    ensures s.lights[|old(s.lights)|] == l && s.lights[|old(s.lights)| + 1] == l
    ensures s.lights[..|old(s.lights)|] == old(s.lights)
    ensures s.geometries == old(s.geometries)
  {
    s.AddLight(l);
    s.AddLight(l);
  }
}
