/** Colour quantization: every R, G and B sample is floored onto a uniform
    grid whose step depends on the quality slider, and the distinct colours of
    the result are collected to choose the output container. */
module Quantize {
  import opened Rounding
  import opened Raster
  import opened Slider

  /** `Math.max(2, Math.round(quality / 4))`: levels per channel. The floor of
      2 keeps qualities 1 to 5 from giving 0 or 1 levels (0 would make the
      step below a division by zero). */
  function ColorLevels(q: Quality): (levels: nat)
    ensures 2 <= levels <= 25
    ensures levels > 2 ==> 8 * levels <= 2 * q + 4 < 8 * (levels + 1)
    ensures levels == 2 <==> q <= 9
  {
    Max(2, RoundHalfUp(q, 4))
  }

  /** The quantization step, `Math.floor(256 / colorLevels)`. */
  function Factor(q: Quality): (f: nat)
    ensures 10 <= f <= 128
    ensures f * ColorLevels(q) <= 256 < (f + 1) * ColorLevels(q)
  {
    var levels := ColorLevels(q);
    var f := 256 / levels;
    assert 10 * levels <= 256 < 129 * levels by {
      MulLe(levels, 25, 10);
      MulLe(2, levels, 129);
    }
    FloorDivBetween(256, levels, 10, 128);
    FloorMultiple(256, levels);
    Distrib(levels, f, 1);
    f
  }

  lemma ColorLevelValues()
    ensures ColorLevels(1) == 2 && ColorLevels(2) == 2
    ensures ColorLevels(10) == 3 && ColorLevels(100) == 25
    ensures Factor(1) == 128 && Factor(10) == 85 && Factor(100) == 10
  {
  }

  /** The grid value a sample is floored to: the largest multiple of f not above v. */
  function Snap(v: Byte, f: nat): (r: Byte)
    requires f >= 1
    ensures r % f == 0 && r <= v < r + f
  {
    FloorMultiple(v, f);
    MultipleDiv(v / f, f);
    (v / f) * f
  }

  /** The grid value is the only multiple of f in (v - f, v]. */
  lemma SnapUnique(v: Byte, f: nat, r: int)
    requires f >= 1
    requires r % f == 0 && r <= v < r + f
    ensures Snap(v, f) == r
  {
    var s := Snap(v, f);
    if r < s {
      MultiplesApart(r, s, f);
    } else if s < r {
      MultiplesApart(s, r, f);
    }
  }

  /** Two distinct multiples of f are at least f apart. */
  lemma MultiplesApart(a: int, b: int, f: nat)
    requires f >= 1 && a % f == 0 && b % f == 0 && a < b
    ensures b - a >= f
  {
    var k := b / f - a / f;
    assert b - a == k * f by {
      DivModUnique(a, f, a / f, 0);
      DivModUnique(b, f, b / f, 0);
      Distrib(f, b / f, -(a / f));
      assert k * f == (b / f) * f - (a / f) * f;
    }
    if k < 1 {
      MulLe(k, 0, f);
    } else {
      MulAtLeast(k, f);
    }
  }

  /** Snapping a value already on the grid changes nothing. */
  lemma SnapIdempotent(v: Byte, f: nat)
    requires f >= 1
    ensures Snap(Snap(v, f), f) == Snap(v, f)
  {
    SnapUnique(Snap(v, f), f, Snap(v, f));
  }

  /** The pass as a function of the input buffer: R, G and B snapped, alpha kept. */
  function QuantizeChannels(data: seq<Byte>, f: nat): (r: seq<Byte>)
    requires f >= 1
    ensures |r| == |data|
  {
    seq(|data|, i requires 0 <= i < |data| => if Channel(i) == 3 then data[i] else Snap(data[i], f))
  }

  /** The colour of pixel p. */
  function PixelRgb(buf: seq<Byte>, p: nat): Rgb
    requires 4 * p + 3 < |buf|
  {
    (buf[4 * p], buf[4 * p + 1], buf[4 * p + 2])
  }

  /** The distinct colours of a buffer (`colorMap` keyed by colour): never
      more colours than pixels, and at least one when there is a pixel. */
  function Palette(buf: seq<Byte>): (colors: set<Rgb>)
    requires |buf| % 4 == 0
    ensures 4 * |colors| <= |buf|
    ensures |buf| > 0 ==> PixelRgb(buf, 0) in colors
  {
    FirstColoursBound(buf, |buf| / 4);
    set p | 0 <= p < |buf| / 4 :: PixelRgb(buf, p)
  }

  /** The colours of the first n pixels number at most n. */
  lemma {:induction false} FirstColoursBound(buf: seq<Byte>, n: nat)
    requires 4 * n <= |buf|
    ensures |set p | 0 <= p < n :: PixelRgb(buf, p)| <= n
  {
    if n > 0 {
      FirstColoursBound(buf, n - 1);
      var before := set p | 0 <= p < n - 1 :: PixelRgb(buf, p);
      var after := set p | 0 <= p < n :: PixelRgb(buf, p);
      assert after == before + {PixelRgb(buf, n - 1)} by {
        forall t | t in after
          ensures t in before + {PixelRgb(buf, n - 1)}
        {
          var p :| 0 <= p < n && PixelRgb(buf, p) == t;
          if p < n - 1 {
            assert t in before;
          }
        }
      }
    }
  }

  /** A second pass with the same step changes nothing. */
  lemma {:induction false} QuantizeIdempotent(data: seq<Byte>, f: nat)
    requires f >= 1
    ensures QuantizeChannels(QuantizeChannels(data, f), f) == QuantizeChannels(data, f)
  {
    var once := QuantizeChannels(data, f);
    forall i | 0 <= i < |data|
      ensures QuantizeChannels(once, f)[i] == once[i]
    {
      if Channel(i) != 3 {
        SnapIdempotent(data[i], f);
      }
    }
  }

  /** Appending one pixel adds exactly its colour to the palette. */
  lemma PaletteExtend(s: seq<Byte>, i: nat)
    requires i % 4 == 0 && i + 4 <= |s|
    ensures Palette(s[..i + 4]) == Palette(s[..i]) + {PixelRgb(s, i / 4)}
  {
    var a, b := s[..i], s[..i + 4];
    forall p | 0 <= p < i / 4
      ensures PixelRgb(b, p) == PixelRgb(a, p)
    {
    }
    assert PixelRgb(b, i / 4) == PixelRgb(s, i / 4);
    assert Palette(b) == Palette(a) + {PixelRgb(s, i / 4)} by {
      forall t | t in Palette(b)
        ensures t in Palette(a) + {PixelRgb(s, i / 4)}
      {
        var p :| 0 <= p < |b| / 4 && PixelRgb(b, p) == t;
        if p < i / 4 {
          assert PixelRgb(a, p) == t;
        }
      }
      forall t | t in Palette(a)
        ensures t in Palette(b)
      {
        var p :| 0 <= p < |a| / 4 && PixelRgb(a, p) == t;
        assert PixelRgb(b, p) == t;
      }
      assert PixelRgb(b, i / 4) in Palette(b);
    }
  }

  /** The quantization loop: one pixel per step, snapping R, G and B in place
      and recording each resulting colour. */
  method QuantizePass(data: seq<Byte>, q: Quality) returns (out: seq<Byte>, colors: set<Rgb>)
    requires |data| % 4 == 0
    ensures out == QuantizeChannels(data, Factor(q))
    ensures colors == Palette(out)
    ensures forall i | 0 <= i < |out| && Channel(i) == 3 :: out[i] == data[i]
    ensures forall i | 0 <= i < |out| && Channel(i) < 3 ::
      out[i] % Factor(q) == 0 && out[i] <= data[i] < out[i] + Factor(q)
  {
    var factor := Factor(q);
    ghost var target := QuantizeChannels(data, factor);
    out, colors := data, {};
    var i := 0;
    while i < |data|
      invariant 0 <= i <= |data| && i % 4 == 0
      invariant out == target[..i] + data[i..]
      invariant colors == Palette(target[..i])
    {
      out, colors := QuantizePixel(data, factor, i, out, colors);
      i := i + 4;
    }
    assert target[..|data|] == target;
    QuantizeChannelsBounds(data, factor);
  }

  /** The loop body: with the pixels before sample i done, snap the colour
      channels of the pixel at i in place and record its colour. */
  method QuantizePixel(data: seq<Byte>, f: nat, i: nat, cur: seq<Byte>, colors: set<Rgb>)
    returns (out: seq<Byte>, colors': set<Rgb>)
    requires f >= 1 && |data| % 4 == 0 && i % 4 == 0 && i < |data|
    requires cur == QuantizeChannels(data, f)[..i] + data[i..]
    requires colors == Palette(QuantizeChannels(data, f)[..i])
    ensures i + 4 <= |data| && (i + 4) % 4 == 0
    ensures out == QuantizeChannels(data, f)[..i + 4] + data[i + 4..]
    ensures colors' == Palette(QuantizeChannels(data, f)[..i + 4])
  {
    ghost var p := i / 4;
    assert i == 4 * p;
    QuantizeStep(data, f, p, cur);
    var r := Snap(cur[i], f);
    var g := Snap(cur[i + 1], f);
    var b := Snap(cur[i + 2], f);
    PaletteExtend(QuantizeChannels(data, f), i);
    colors' := colors + {(r, g, b)};
    out := cur[i := r][i + 1 := g][i + 2 := b];
  }

  /** One step of the loop: with the first p pixels done, snapping pixel p's
      colour channels in place leaves the first p + 1 pixels done. */
  lemma QuantizeStep(data: seq<Byte>, f: nat, p: nat, cur: seq<Byte>)
    requires f >= 1 && |data| % 4 == 0 && 4 * p < |data|
    requires cur == QuantizeChannels(data, f)[..4 * p] + data[4 * p..]
    ensures 4 * p + 4 <= |data| && (4 * p) % 4 == 0 && (4 * p) / 4 == p
    ensures cur[4 * p] == data[4 * p] && cur[4 * p + 1] == data[4 * p + 1] && cur[4 * p + 2] == data[4 * p + 2]
    ensures PixelRgb(QuantizeChannels(data, f), p)
            == (Snap(data[4 * p], f), Snap(data[4 * p + 1], f), Snap(data[4 * p + 2], f))
    ensures cur[4 * p := Snap(data[4 * p], f)][4 * p + 1 := Snap(data[4 * p + 1], f)][4 * p + 2 := Snap(data[4 * p + 2], f)]
            == QuantizeChannels(data, f)[..4 * p + 4] + data[4 * p + 4..]
  {
    var i := 4 * p;
    PixelChannels(p);
    assert |data| - i >= 4 by {
      DivModUnique(|data|, 4, |data| / 4, 0);
      MulLe(p + 1, |data| / 4, 4);
    }
  }

  /** The pass keeps alpha and moves each colour channel down onto the grid,
      by less than one step. */
  lemma QuantizeChannelsBounds(data: seq<Byte>, f: nat)
    requires f >= 1
    ensures forall i | 0 <= i < |data| && Channel(i) == 3 :: QuantizeChannels(data, f)[i] == data[i]
    ensures forall i | 0 <= i < |data| && Channel(i) < 3 ::
      QuantizeChannels(data, f)[i] % f == 0 && QuantizeChannels(data, f)[i] <= data[i] < QuantizeChannels(data, f)[i] + f
  {
  }

  /** For q <= 21 there are at most five levels, so the step is at least 51. */
  lemma LowQualityStep(q: Quality)
    requires q <= 21
    ensures ColorLevels(q) <= 5 && Factor(q) >= 51
  {
    var levels := ColorLevels(q);
    FloorDivBetween(256, levels, 51, 128);
  }

  /** A value on the six-point grid 0, f, 2f, 3f, 4f, 5f. */
  predicate OnGrid(c: int, f: nat)
    requires f >= 1
  {
    0 <= c <= 5 * f && c % f == 0
  }

  predicate GridColor(t: Rgb, f: nat)
    requires f >= 1
  {
    OnGrid(t.0, f) && OnGrid(t.1, f) && OnGrid(t.2, f)
  }

  /** A grid colour written as a three-digit base-6 number. */
  function Code(t: Rgb, f: nat): int
    requires f >= 1
  {
    (t.0 / f) * 36 + (t.1 / f) * 6 + t.2 / f
  }

  lemma GridDigit(c: int, f: nat)
    requires f >= 1 && OnGrid(c, f)
    ensures 0 <= c / f <= 5 && c == (c / f) * f
  {
    FloorDivBetween(c, f, 0, 5);
  }

  /** Distinct grid colours have distinct codes, all below 216. */
  lemma CodeInjective(t: Rgb, u: Rgb, f: nat)
    requires f >= 1 && GridColor(t, f) && GridColor(u, f)
    ensures 0 <= Code(t, f) < 216
    ensures Code(t, f) == Code(u, f) ==> t == u
  {
    GridDigit(t.0, f); GridDigit(t.1, f); GridDigit(t.2, f);
    GridDigit(u.0, f); GridDigit(u.1, f); GridDigit(u.2, f);
    if Code(t, f) == Code(u, f) {
      Base6Unique(t.0 / f, t.1 / f, t.2 / f, u.0 / f, u.1 / f, u.2 / f);
    }
  }

  lemma Base6Unique(a: int, b: int, c: int, a': int, b': int, c': int)
    requires 0 <= a <= 5 && 0 <= b <= 5 && 0 <= c <= 5
    requires 0 <= a' <= 5 && 0 <= b' <= 5 && 0 <= c' <= 5
    requires a * 36 + b * 6 + c == a' * 36 + b' * 6 + c'
    ensures a == a' && b == b' && c == c'
  {
  }

  /** The codes of a set of grid colours are as many as the colours. */
  lemma {:induction false} CodeImageCard(colors: set<Rgb>, f: nat)
    requires f >= 1
    requires forall t | t in colors :: GridColor(t, f)
    ensures |set t | t in colors :: Code(t, f)| == |colors|
    decreases |colors|
  {
    if colors != {} {
      var t :| t in colors;
      var rest := colors - {t};
      CodeImageCard(rest, f);
      var codes := set u | u in colors :: Code(u, f);
      var restCodes := set u | u in rest :: Code(u, f);
      assert codes == restCodes + {Code(t, f)};
      forall u | u in rest
        ensures Code(u, f) != Code(t, f)
      {
        CodeInjective(u, t, f);
      }
      assert Code(t, f) !in restCodes;
    }
  }

  /** A set of integers drawn from [0, n) has at most n elements. */
  lemma {:induction false} BoundedCard(s: set<int>, n: nat)
    requires forall x | x in s :: 0 <= x < n
    ensures |s| <= n
  {
    if n > 0 {
      BoundedCard(s - {n - 1}, n - 1);
    } else {
      assert forall x :: x !in s;
      assert s == {};
    }
  }

  /** Every quantized sample of a step-at-least-51 pass lies on the six-point grid. */
  lemma SnapOnGrid(v: Byte, f: nat)
    requires f >= 51
    ensures OnGrid(Snap(v, f), f)
  {
    var s := Snap(v, f);
    DivModUnique(s, f, s / f, 0);
    if s / f >= 6 {
      MulLe(6, s / f, f);
    }
  }

  /** At qualities up to 21 a quantized image never has more than 216 colours,
      so the pass always hands a palette under 256 to the format choice. */
  lemma LowQualityPaletteSmall(data: seq<Byte>, q: Quality)
    requires |data| % 4 == 0 && q <= 21
    ensures |Palette(QuantizeChannels(data, Factor(q)))| <= 216
  {
    LowQualityStep(q);
    var f := Factor(q);
    var out := QuantizeChannels(data, f);
    var colors := Palette(out);
    forall t | t in colors
      ensures GridColor(t, f)
    {
      var p :| 0 <= p < |out| / 4 && PixelRgb(out, p) == t;
      PixelChannels(p);
      SnapOnGrid(data[4 * p], f);
      SnapOnGrid(data[4 * p + 1], f);
      SnapOnGrid(data[4 * p + 2], f);
    }
    CodeImageCard(colors, f);
    var codes := set t | t in colors :: Code(t, f);
    forall c | c in codes
      ensures 0 <= c < 216
    {
      var t :| t in colors && Code(t, f) == c;
      CodeInjective(t, t, f);
    }
    BoundedCard(codes, 216);
  }
}
