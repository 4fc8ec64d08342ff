/** The parts of Go's `image` and `image/color` packages the renderer uses: the `color.RGBA`
    value and an `image.RGBA` buffer of width W and height H, indexed `img[x, y]`. */
module Images {

  /** A Go `uint8`. */
  type Byte = n: int | 0 <= n < 256

  /** Go's conversion `uint8(n)`: keeps the low eight bits (two's complement for negative n). */
  function Uint8(n: int): (b: Byte)
    ensures 0 <= n < 256 ==> b == n
    ensures (b - n) % 256 == 0
  {
    n % 256
  }

  datatype RGBA = RGBA(r: Byte, g: Byte, b: Byte, a: Byte)

  /** The zero value `color.RGBA{}`: transparent black. */
  const Transparent: RGBA := RGBA(0, 0, 0, 0)

  /** `image.NewRGBA(image.Rect(0, 0, width, height))`: a zero-initialised buffer. */
  method NewRGBA(width: nat, height: nat) returns (img: array2<RGBA>)
    ensures fresh(img)
    ensures img.Length0 == width && img.Length1 == height
    ensures forall x, y :: 0 <= x < width && 0 <= y < height ==> img[x, y] == Transparent
  {
    img := new RGBA[width, height]((x, y) => Transparent);
  }

  /** `(*image.RGBA).Set`: a point outside the bounds is silently ignored. */
  method Set(img: array2<RGBA>, x: int, y: int, c: RGBA)
    modifies img
    ensures 0 <= x < img.Length0 && 0 <= y < img.Length1 ==> img[x, y] == c
    ensures forall i, j :: 0 <= i < img.Length0 && 0 <= j < img.Length1 && (i, j) != (x, y) ==>
      img[i, j] == old(img[i, j])
  {
    if 0 <= x < img.Length0 && 0 <= y < img.Length1 {
      img[x, y] := c;
    }
  }

  /** Position `y * width + x` of a row-major scan (rows outer, columns inner) is column `x`
      of row `y`. */
  lemma RowMajor(x: int, y: nat, width: int)
    requires 0 <= x < width
    ensures (y * width + x) / width == y && (y * width + x) % width == x
  {
    var n := y * width + x;
    var q, r := n / width, n % width;
    assert (q - y) * width == x - r;
    if q > y {
      AtLeastOnce(q - y, width);
    } else if q < y {
      AtLeastOnce(y - q, width);
    }
  }

  lemma {:induction false} AtLeastOnce(a: int, width: int)
    requires a >= 1 && width > 0
    ensures a * width >= width
  {
    if a > 1 {
      AtLeastOnce(a - 1, width);
      assert a * width == (a - 1) * width + width;
    }
  }
}
