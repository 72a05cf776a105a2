/**
 * The pure parts of the transcoder: colour-mode normalisation (`ensure_rgb`), the
 * output extension for the configured format, and the keyword arguments passed
 * to `im.save`. Decoding, resizing and encoding belong to the image library.
 */
module Transcode {
  import opened Wrappers
  import opened Text

  /** Modes that `ensure_rgb` converts: alpha, palette and CMYK. */
  const ConvertedModes: set<string> := {"RGBA", "LA", "P", "CMYK"}

  /** `ensure_rgb`, on the image mode: the mode of the image it returns. */
  function EnsureRgb(mode: string): (r: string)
    ensures r !in ConvertedModes
    ensures mode in ConvertedModes ==> r == "RGB"
    ensures mode !in ConvertedModes ==> r == mode
  {
    if mode in ConvertedModes then "RGB" else mode
  }

  lemma EnsureRgbIdempotent(mode: string)
    ensures EnsureRgb(EnsureRgb(mode)) == EnsureRgb(mode)
  {
  }

  /** `config.output_format.upper()`: the format name handed to the encoder. */
  function SaveFormat(outputFormat: string): (fmt: string)
    ensures |fmt| == |outputFormat|
    ensures forall i :: 0 <= i < |fmt| ==> !('a' <= fmt[i] <= 'z')
    ensures Lower(fmt) == Lower(outputFormat)
  {
    LowerOfUpper(outputFormat);
    Upper(outputFormat)
  }

  /** The output extension for an upper-cased format name. */
  function Extension(fmt: string): (ext: string)
    ensures |ext| >= 1 && ext[0] == '.'
  {
    if fmt == "JPEG" then ".jpg" else "." + Lower(fmt)
  }

  lemma LowerIsJpg(u: string)
    requires forall i :: 0 <= i < |u| ==> !('a' <= u[i] <= 'z')
    ensures Lower(u) == "jpg" <==> u == "JPG"
  {
    if Lower(u) == "jpg" {
      assert |u| == 3;
      assert LowerChar(u[0]) == 'j' && LowerChar(u[1]) == 'p' && LowerChar(u[2]) == 'g';
    }
  }

  /**
   * The extension is ".jpg" exactly for the formats JPEG and JPG (any case); any
   * other format gives "." followed by its lower-cased name.
   */
  lemma ExtensionOfFormat(outputFormat: string)
    ensures Extension(SaveFormat(outputFormat)) == ".jpg" <==> SaveFormat(outputFormat) in {"JPEG", "JPG"}
    ensures SaveFormat(outputFormat) != "JPEG" ==> Extension(SaveFormat(outputFormat)) == "." + Lower(outputFormat)
  {
    var u := SaveFormat(outputFormat);
    LowerOfUpper(outputFormat);
    LowerIsJpg(u);
    if u != "JPEG" {
      assert Extension(u) == ".jpg" <==> Lower(u) == "jpg" by {
        assert (".jpg")[1..] == "jpg";
        assert ("." + Lower(u))[1..] == Lower(u);
      }
    }
  }

  /** Formats that differ only in ASCII case give the same extension. */
  lemma ExtensionIgnoresCase(a: string, b: string)
    requires Lower(a) == Lower(b)
    ensures SaveFormat(a) == SaveFormat(b)
    ensures Extension(SaveFormat(a)) == Extension(SaveFormat(b))
  {
    assert |a| == |b|;
    forall i | 0 <= i < |a|
      ensures UpperChar(a[i]) == UpperChar(b[i])
    {
      assert LowerChar(a[i]) == LowerChar(b[i]);
    }
  }

  lemma ExtensionExamples()
    ensures Extension(SaveFormat("JPEG")) == ".jpg"
    ensures Extension(SaveFormat("jpeg")) == ".jpg"
    ensures Extension(SaveFormat("Png")) == ".png"
    ensures Extension(SaveFormat("WEBP")) == ".webp"
  {
    assert SaveFormat("jpeg") == "JPEG";
    assert SaveFormat("JPEG") == "JPEG";
    assert SaveFormat("Png") == "PNG";
    assert Lower("PNG") == "png";
    assert SaveFormat("WEBP") == "WEBP";
    assert Lower("WEBP") == "webp";
  }

  /** The keyword arguments of `im.save`; an absent key is None. */
  datatype SaveOptions = SaveOptions(
    format: string,
    quality: int,
    optimize: bool,
    subsampling: Option<string>,
    exif: Option<seq<bv8>>,
    iccProfile: Option<seq<bv8>>
  )

  /** A metadata block is carried only when metadata is kept and the block is non-empty. */
  function Carried(stripMetadata: bool, block: Option<seq<bv8>>): (r: Option<seq<bv8>>)
    ensures r.Some? <==> !stripMetadata && block.Some? && block.value != []
    ensures r.Some? ==> r == block
  {
    if !stripMetadata && block.Some? && block.value != [] then block else None
  }

  /** The `save_kwargs` dictionary for one image. */
  function SaveKwargs(fmt: string, quality: int, stripMetadata: bool,
                      exif: Option<seq<bv8>>, icc: Option<seq<bv8>>): (o: SaveOptions)
    ensures o.format == fmt && o.quality == quality && o.optimize
    ensures o.subsampling.Some? <==> fmt == "JPEG"
    ensures o.subsampling.Some? ==> o.subsampling.value == "4:2:0"
    ensures o.exif.Some? <==> !stripMetadata && exif.Some? && exif.value != []
    ensures o.exif.Some? ==> o.exif == exif
    ensures o.iccProfile.Some? <==> !stripMetadata && icc.Some? && icc.value != []
    ensures o.iccProfile.Some? ==> o.iccProfile == icc
  {
    SaveOptions(fmt, quality, true,
                if fmt == "JPEG" then Some("4:2:0") else None,
                Carried(stripMetadata, exif),
                Carried(stripMetadata, icc))
  }
}
