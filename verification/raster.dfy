/** The quality slider: an integer from 1 to 100, 80 when the page loads. */
module Slider {

  type Quality = q: int | 1 <= q <= 100 witness 80
}

/** The canvas pixel buffer: `width * height` pixels in row-major order,
    four bytes each (R, G, B, A), as `getImageData` hands it out. */
module Raster {
  import opened Rounding

  /** One sample of a `Uint8ClampedArray`. */
  type Byte = v: int | 0 <= v < 256

  /** An (R, G, B) colour triple. */
  type Rgb = (int, int, int)

  datatype Image = Image(width: nat, height: nat, data: seq<Byte>)
  {
    /** The buffer holds exactly four samples per pixel. */
    predicate Valid()
    {
      |data| == width * height * 4
    }
  }

  /** Position of channel c of pixel (x, y) in a buffer w pixels wide. */
  function Idx(w: nat, x: nat, y: nat, c: nat): nat
  {
    4 * (y * w + x) + c
  }

  /** Channel (0 = R, 1 = G, 2 = B, 3 = A) of the sample at position i. */
  function Channel(i: nat): nat
  {
    i % 4
  }

  /** Column of the pixel that the sample at position i belongs to. */
  function Column(w: nat, i: nat): nat
  {
    if w == 0 then 0 else (i / 4) % w
  }

  /** Row of the pixel that the sample at position i belongs to. */
  function Row(w: nat, i: nat): nat
  {
    if w == 0 then 0 else (i / 4) / w
  }

  /** Every in-image coordinate addresses a sample inside the buffer. */
  lemma IdxInBounds(w: nat, h: nat, x: nat, y: nat, c: nat)
    requires x < w && y < h && c < 4
    ensures Idx(w, x, y, c) < w * h * 4
  {
    assert y * w + x < (y + 1) * w;
    MulLe(y + 1, h, w);
    assert w * h == h * w;
  }

  /** Decoding the position of channel c of pixel (x, y) gives back x, y and c. */
  lemma IdxCoordinates(w: nat, x: nat, y: nat, c: nat)
    requires x < w && c < 4
    ensures Column(w, Idx(w, x, y, c)) == x
    ensures Row(w, Idx(w, x, y, c)) == y
    ensures Channel(Idx(w, x, y, c)) == c
  {
    var i := Idx(w, x, y, c);
    DivModUnique(i, 4, y * w + x, c);
    DivModUnique(y * w + x, w, y, x);
  }

  /** Every position in the buffer is the position of some in-image pixel's channel. */
  lemma CoordinatesIdx(w: nat, h: nat, i: nat)
    requires i < w * h * 4
    ensures w > 0
    ensures Column(w, i) < w && Row(w, i) < h && Channel(i) < 4
    ensures Idx(w, Column(w, i), Row(w, i), Channel(i)) == i
  {
    var p := i / 4;
    assert p < w * h by {
      assert i == 4 * p + i % 4;
    }
  }

  /** Position i lies in pixel (x, y) exactly when it is one of that pixel's four samples. */
  lemma SamePixel(w: nat, h: nat, i: nat, x: nat, y: nat)
    requires i < w * h * 4 && x < w
    ensures w > 0
    ensures (Column(w, i) == x && Row(w, i) == y) <==> Idx(w, x, y, 0) <= i < Idx(w, x, y, 0) + 4
  {
    CoordinatesIdx(w, h, i);
    if Idx(w, x, y, 0) <= i < Idx(w, x, y, 0) + 4 {
      IdxCoordinates(w, x, y, i - Idx(w, x, y, 0));
    }
  }

  /** The four samples of pixel p sit at 4p .. 4p + 3, in channel order. */
  lemma PixelChannels(p: nat)
    ensures Channel(4 * p) == 0 && Channel(4 * p + 1) == 1
    ensures Channel(4 * p + 2) == 2 && Channel(4 * p + 3) == 3
    ensures (4 * p) % 4 == 0 && (4 * p) / 4 == p
  {
    DivModUnique(4 * p, 4, p, 0);
    DivModUnique(4 * p + 1, 4, p, 1);
    DivModUnique(4 * p + 2, 4, p, 2);
    DivModUnique(4 * p + 3, 4, p, 3);
  }
}
