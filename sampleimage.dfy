/** `CreateSampleImage` of `image.go`: fills a 1024 by 1024 image with a colour pattern, row by
    row. The Go function drops the image when it returns; here it is returned, together with
    the ghost list of the points written, in order. */
module SampleImage {
  import opened Images

  const Width: nat := 1024
  const Height: nat := 1024

  /** The colour written at (x, y). Every channel is a remainder modulo 255, so the conversion
      to `uint8` keeps it and it never exceeds 254; alpha is 255. */
  function SampleColor(x: nat, y: nat): (c: RGBA)
    ensures c.a == 255
    ensures c.r == (x / 4) % 255 && c.g == (y / 4) % 255 && c.b == (x * y / 16) % 255
    ensures c.r <= 254 && c.g <= 254 && c.b <= 254
  {
    RGBA(Uint8((x / 4) % 255), Uint8((y / 4) % 255), Uint8((x * y / 16) % 255), 255)
  }

  /** Red depends on the column only, green on the row only. */
  lemma RedAndGreenSeparate(x1: nat, y1: nat, x2: nat, y2: nat)
    ensures x1 == x2 ==> SampleColor(x1, y1).r == SampleColor(x2, y2).r
    ensures y1 == y2 ==> SampleColor(x1, y1).g == SampleColor(x2, y2).g
  {
  }

  method CreateSampleImage() returns (img: array2<RGBA>, ghost writes: seq<(int, int)>)
    ensures fresh(img) && img.Length0 == Width && img.Length1 == Height
    ensures forall x, y :: 0 <= x < Width && 0 <= y < Height ==> img[x, y] == SampleColor(x, y)
    ensures |writes| == Width * Height
    ensures forall k :: 0 <= k < |writes| ==> writes[k] == (k % Width, k / Width)
  {
    var width, height := Width, Height;
    img := NewRGBA(width, height);
    writes := [];
    for y := 0 to width
      invariant img.Length0 == Width && img.Length1 == Height
      invariant forall x', y' :: 0 <= x' < Width && 0 <= y' < y ==> img[x', y'] == SampleColor(x', y')
      invariant |writes| == y * Width
      invariant forall k :: 0 <= k < |writes| ==> writes[k] == (k % Width, k / Width)
    {
      for x := 0 to height
        invariant img.Length0 == Width && img.Length1 == Height
        invariant forall x', y' :: 0 <= x' < Width && 0 <= y' < y ==> img[x', y'] == SampleColor(x', y')
        invariant forall x' :: 0 <= x' < x ==> img[x', y] == SampleColor(x', y)
        invariant |writes| == y * Width + x
        invariant forall k :: 0 <= k < |writes| ==> writes[k] == (k % Width, k / Width)
      {
        var r := Uint8((x / 4) % 255);
        var g := Uint8((y / 4) % 255);
        var b := Uint8((x * y / 16) % 255);
        var c := RGBA(r, g, b, 255);
        Set(img, x, y, c);
        RowMajor(x, y, Width);
        writes := writes + [(x, y)];
      }
    }
  }

  /** In a row-major list of all the points, each point of the image occurs exactly once. */
  lemma EachPointOnce(writes: seq<(int, int)>, x: int, y: int)
    requires |writes| == Width * Height
    requires forall k :: 0 <= k < |writes| ==> writes[k] == (k % Width, k / Width)
    requires 0 <= x < Width && 0 <= y < Height
    ensures 0 <= y * Width + x < |writes| && writes[y * Width + x] == (x, y)
    ensures forall k :: 0 <= k < |writes| && writes[k] == (x, y) ==> k == y * Width + x
  {
    RowMajor(x, y, Width);
    forall k | 0 <= k < |writes| && writes[k] == (x, y) ensures k == y * Width + x {
      assert k == (k / Width) * Width + k % Width;
    }
  }
}
