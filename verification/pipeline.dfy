/** One run of `compressImage`: size the canvas, read its pixels, apply the
    selected pixel transform and choose the encoder arguments. The pixels are
    what the browser's `drawImage` produced at the computed size; resampling,
    the encoder and the React state updates are not modelled. */
module Pipeline {
  import opened Results
  import opened Rounding
  import opened Slider
  import opened Raster
  import opened Resize
  import opened Quantize
  import opened BlockAveraging
  import opened Encoding

  /** Everything `canvas.toBlob` is called with: the pixels and the encoder arguments. */
  datatype Request = Request(image: Image, args: EncoderArgs)

  method Compress(srcW: nat, srcH: nat, canvas: seq<Byte>, s: Strategy, q: Quality)
    returns (r: Result<Request, ResizeError>)
    requires |canvas| == TargetSize(srcW, srcH).width * TargetSize(srcW, srcH).height * 4
    ensures r.Failure? <==> TargetSize(srcW, srcH).width == 0 || TargetSize(srcW, srcH).height == 0
    ensures r.Success? ==> r.value.image.Valid() && |r.value.image.data| % 4 == 0
    ensures r.Success? ==> r.value.image.width == TargetSize(srcW, srcH).width
    ensures r.Success? ==> r.value.image.height == TargetSize(srcW, srcH).height
    ensures r.Success? && (s == Jpeg || s == Webp) ==>
      r.value.image.data == canvas && r.value.args == EncoderArgs(if s == Webp then ImageWebp else ImageJpeg, Some(q))
    ensures r.Success? && s == Quantization ==>
      r.value.image.data == QuantizeChannels(canvas, Factor(q))
      && r.value.args == QuantizedFormat(|Palette(r.value.image.data)|)
    ensures r.Success? && s == Quantization && q <= 21 ==> r.value.args.mime == ImagePng
    ensures r.Success? && s == Dct ==>
      r.value.image.data == BlockAverage(canvas, r.value.image.width, r.value.image.height, BlockSize(q))
      && r.value.args == EncoderArgs(ImageJpeg, Some(q))
  {
    var dims := CheckedTargetSize(srcW, srcH);
    if dims.Failure? {
      return Failure(dims.error);
    }
    var w, h := dims.value.width, dims.value.height;
    MultipleDiv(w * h, 4);
    match s {
      case Quantization =>
        var pixels, colors := QuantizePass(canvas, q);
        if q <= 21 {
          LowQualityPaletteSmall(canvas, q);
        }
        r := Success(Request(Image(w, h, pixels), ArgsFor(s, q, |colors|)));
      case Dct =>
        var pixels := AverageBlocks(canvas, w, h, q);
        r := Success(Request(Image(w, h, pixels), ArgsFor(s, q, 0)));
      case _ =>
        r := Success(Request(Image(w, h, canvas), ArgsFor(s, q, 0)));
    }
  }
}
