/** The arguments the page hands to `canvas.toBlob` for each compression type.
    The encoder itself is a browser service and is not modelled; only its
    inputs are. Encoder quality is written as a percentage: `quality / 100`
    is `Some(quality)`, the fixed `0.9` is `Some(90)`. */
module Encoding {
  import opened Results
  import opened Slider

  /** The four entries of `compressionTypes`. */
  datatype Strategy = Jpeg | Webp | Quantization | Dct

  datatype Mime = ImagePng | ImageJpeg | ImageWebp

  datatype EncoderArgs = EncoderArgs(mime: Mime, quality: Option<nat>)

  /** Fewer than 256 distinct colours: PNG, which takes no quality argument.
      Otherwise JPEG, at a fixed 0.9 whatever the slider says. */
  function QuantizedFormat(paletteSize: nat): (a: EncoderArgs)
    ensures a.mime == ImagePng <==> paletteSize < 256
    ensures a.mime == ImagePng <==> a.quality == None
    ensures a.mime != ImagePng ==> a.mime == ImageJpeg && a.quality == Some(90)
  {
    if paletteSize < 256 then EncoderArgs(ImagePng, None) else EncoderArgs(ImageJpeg, Some(90))
  }

  /** The encoder arguments for a run. `paletteSize` is the number of distinct
      colours the quantization pass produced; other strategies ignore it. */
  function ArgsFor(s: Strategy, q: Quality, paletteSize: nat): (a: EncoderArgs)
    ensures a.mime == ImageWebp <==> s == Webp
    ensures a.mime == ImagePng <==> s == Quantization && paletteSize < 256
    ensures s != Quantization ==> a.quality == Some(q)
    ensures s == Quantization ==> a == QuantizedFormat(paletteSize)
  {
    match s
    case Quantization => QuantizedFormat(paletteSize)
    case Dct => EncoderArgs(ImageJpeg, Some(q))
    case Webp => EncoderArgs(ImageWebp, Some(q))
    case Jpeg => EncoderArgs(ImageJpeg, Some(q))
  }

  /** Whatever the strategy, the encoder is given a quality in (0, 1] or none. */
  lemma EncoderQualityInRange(s: Strategy, q: Quality, paletteSize: nat)
    ensures ArgsFor(s, q, paletteSize).quality.Some? ==> 1 <= ArgsFor(s, q, paletteSize).quality.value <= 100
    ensures ArgsFor(s, q, paletteSize).quality.None? <==> ArgsFor(s, q, paletteSize).mime == ImagePng
  {
  }

  /** The quantization strategy's encoder arguments do not depend on the
      slider: the slider acts only through the colour levels. */
  lemma QuantizationIgnoresSlider(q1: Quality, q2: Quality, paletteSize: nat)
    ensures ArgsFor(Quantization, q1, paletteSize) == ArgsFor(Quantization, q2, paletteSize)
  {
  }
}
