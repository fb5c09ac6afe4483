/**
 * The crop tool (src/tools/CropTool.jsx): a preset from PLATFORM_PRESETS sets the fit
 * mode, the background, the preview's aspect ratio and the download name; the export
 * draws the picture on a canvas of the chosen size with the same backdrop and picture
 * rectangles the preview uses, and downloads it as `${fileName}.${format}`.
 *
 * Decoding and encoding are opaque: the picture is its decoded size, the export canvas
 * is described by what is drawn on it and a download by its name, its encoding and that
 * canvas.
 */
module CropTool {
  import opened Wrappers
  import opened Geometry
  import opened Text
  import opened FitModes
  import opened Preview
  import opened PlatformPresets

  /** `toDataURL("image/jpeg", quality)` or `toDataURL("image/png")`. */
  datatype Encoding = Jpeg(quality: real) | Png

  /** The MIME type handed to `toDataURL`. */
  function MimeType(e: Encoding): string
  {
    if e.Jpeg? then "image/jpeg" else "image/png"
  }

  /** "jpg" encodes as JPEG at the chosen quality; any other format as PNG. */
  function EncodingOf(format: string, quality: real): Encoding
  {
    if format == "jpg" then Jpeg(quality) else Png
  }

  /** Only "jpg" is lossy, and then at exactly the chosen quality. */
  lemma EncodingOfIff(format: string, quality: real)
    ensures EncodingOf(format, quality).Jpeg? <==> format == "jpg"
    ensures format == "jpg" ==> EncodingOf(format, quality).quality == quality
    ensures MimeType(EncodingOf(format, quality)) == if format == "jpg" then "image/jpeg" else "image/png"
  {
  }

  /** The export canvas: its size and what `img.onload` draws on it. */
  datatype ExportCanvas = ExportCanvas(width: Pixels, height: Pixels, backdrop: Option<Layer>, image: Rect)

  /** What the download link saves. */
  datatype Download = Download(name: string, encoding: Encoding, canvas: ExportCanvas)

  /** The export canvas for a decoded picture and a size from the export panel. */
  function ExportCanvasFor(d: Dims, fitMode: FitMode, background: Background, size: PlatformItem): ExportCanvas
  {
    var W, H := size.width as real, size.height as real;
    ExportCanvas(size.width, size.height, Backdrop(d, fitMode, background, W, H), ImageRect(d, fitMode, W, H))
  }

  /** The download `handleExport` produces. */
  function ExportOf(d: Dims, fitMode: FitMode, background: Background, fileName: string, format: string,
                    quality: real, size: PlatformItem): Download
  {
    Download(fileName + "." + format, EncodingOf(format, quality), ExportCanvasFor(d, fitMode, background, size))
  }

  /**
   * The export canvas is exactly the chosen size.  "fit" keeps the whole picture inside
   * it, any other mode covers it; the picture keeps its proportions, is centred and meets
   * the canvas edge on one axis.  A backdrop is painted only in "fit" mode, and the
   * blurred one covers the canvas.
   */
  lemma ExportCanvasExact(d: Dims, fitMode: FitMode, background: Background, size: PlatformItem)
    ensures var c := ExportCanvasFor(d, fitMode, background, size);
            var W, H := size.width as real, size.height as real;
            c.width == size.width && c.height == size.height
            && (fitMode == Fit ==> Inside(c.image, W, H))
            && (fitMode != Fit ==> Covers(c.image, W, H))
            && KeepsAspect(c.image, d.w as real, d.h as real) && CentredOn(c.image, W, H)
            && TightOnOneAxis(c.image, W, H)
            && (c.backdrop.Some? ==> fitMode == Fit)
            && (fitMode == Fit && background == Blur ==> c.backdrop.Some? && Covers(c.backdrop.value.r, W, H))
  {
    var W, H := size.width as real, size.height as real;
    ImageRectFits(d, fitMode, W, H);
    BackdropCovers(d, fitMode, background, W, H);
  }

  /** Appending the same text to both sides keeps a suffix a suffix. */
  lemma EndsWithExtended(s: string, t: string, e: string)
    requires EndsWith(s, t)
    ensures EndsWith(s + e, t + e)
  {
    var n := |s| - |t|;
    assert (s + e)[n..] == s[n..] + e;
  }

  /**
   * A preset's file name ends with its `${width}x${height}`, so the download name of a
   * preset exported at its own size ends with that tag and the format.
   */
  lemma ExportNameTagged(p: PlatformItem, d: Dims, fitMode: FitMode, background: Background, format: string, quality: real)
    requires WellFormed(p)
    ensures EndsWith(ExportOf(d, fitMode, background, p.filename, format, quality, p).name,
                     DimsTag(p.width, p.height) + "." + format)
  {
    assert p.filename + "." + format == p.filename + ("." + format);
    assert DimsTag(p.width, p.height) + "." + format == DimsTag(p.width, p.height) + ("." + format);
    EndsWithExtended(p.filename, DimsTag(p.width, p.height), "." + format);
  }

  /**
   * With a positive ratio the preview canvas is in the proportions of a preset's export
   * canvas exactly when the preset's ratio is its width over its height.
   */
  lemma PreviewProportionalIff(p: PlatformItem, innerHeight: real)
    requires p.ratio > 0.0 && innerHeight > 0.0
    ensures var size := PreviewSize(Some(p.ratio), innerHeight);
            (size.0 * p.height as real == size.1 * p.width as real) <==> RatioExact(p)
  {
    var size := PreviewSize(Some(p.ratio), innerHeight);
    PreviewSizeKeepsRatio(Some(p.ratio), innerHeight);
    ProportionalIff(size.0, size.1, p.ratio, p.width as real, p.height as real);
  }

  /** A w × h box with w = r · h, h > 0, is in the proportions W : H exactly when r = W / H. */
  lemma ProportionalIff(w: real, h: real, r: real, W: real, H: real)
    requires h > 0.0 && H > 0.0 && w == r * h
    ensures w * H == h * W <==> r == W / H
  {
    assert w * H == h * (r * H);
    if h * (r * H) == h * W {
      assert h * (r * H - W) == 0.0;
      assert r * H == W;
    }
    if r == W / H {
      assert r * H == W;
    }
  }

  /**
   * For a preset whose ratio is its width over its height, the preview is the export
   * scaled by one factor k > 0: the canvas, the picture and the backdrop alike.
   */
  lemma PreviewMatchesExport(p: PlatformItem, d: Dims, fitMode: FitMode, background: Background, innerHeight: real)
    returns (k: real)
    requires RatioExact(p) && innerHeight > 0.0
    ensures k > 0.0
    ensures PreviewSize(Some(p.ratio), innerHeight).0 == k * p.width as real
    ensures PreviewSize(Some(p.ratio), innerHeight).1 == k * p.height as real
    ensures ImageRect(d, fitMode, k * p.width as real, k * p.height as real)
              == Scaled(ExportCanvasFor(d, fitMode, background, p).image, k)
    ensures Backdrop(d, fitMode, background, k * p.width as real, k * p.height as real)
              == ScaleLayer(ExportCanvasFor(d, fitMode, background, p).backdrop, k)
  {
    var size := PreviewSize(Some(p.ratio), innerHeight);
    PreviewSizeKeepsRatio(Some(p.ratio), innerHeight);
    k := CommonScale(p.width as real, p.height as real, size.0, size.1);
    ExportImageScales(p, d, fitMode, background, k);
    ExportBackdropScales(p, d, fitMode, background, k);
  }

  /** The export picture on a canvas k times the size is the export picture scaled by k. */
  lemma ExportImageScales(p: PlatformItem, d: Dims, fitMode: FitMode, background: Background, k: real)
    requires k > 0.0
    ensures ImageRect(d, fitMode, k * p.width as real, k * p.height as real)
              == Scaled(ExportCanvasFor(d, fitMode, background, p).image, k)
  {
    ImageRectScales(d, fitMode, p.width as real, p.height as real, k);
  }

  /** The same for the export backdrop. */
  lemma ExportBackdropScales(p: PlatformItem, d: Dims, fitMode: FitMode, background: Background, k: real)
    requires k > 0.0
    ensures Backdrop(d, fitMode, background, k * p.width as real, k * p.height as real)
              == ScaleLayer(ExportCanvasFor(d, fitMode, background, p).backdrop, k)
  {
    BackdropScales(d, fitMode, background, p.width as real, p.height as real, k);
  }

  /** A w × h box in the proportions W / H is W × H scaled by h / H. */
  lemma CommonScale(W: real, H: real, w: real, h: real) returns (k: real)
    requires W > 0.0 && H > 0.0 && h > 0.0 && w == (W / H) * h
    ensures k > 0.0 && w == k * W && h == k * H
  {
    k := h / H;
    var q := W / H;
    assert q * H == W;
    assert h == k * H;
    assert w == q * (k * H) == k * (q * H);
  }

  /**
   * The Facebook post as written: its preview canvas is not in the proportions of its
   * 1200 × 630 export, so the preview does not show what is downloaded.
   */
  lemma FacebookPreviewAsWritten(innerHeight: real)
    requires innerHeight > 0.0
    ensures var size := PreviewSize(Some(FbPostAsWritten.ratio), innerHeight);
            size.0 * 630.0 != size.1 * 1200.0
  {
    FacebookRatioAsWritten();
    PreviewProportionalIff(FbPostAsWritten, innerHeight);
  }

  /** The corrected Facebook post: its preview is its export scaled. */
  lemma FacebookPreviewCorrected(innerHeight: real)
    requires innerHeight > 0.0
    ensures var size := PreviewSize(Some(FbPost.ratio), innerHeight);
            size.0 * 630.0 == size.1 * 1200.0
  {
    FbPostChecked();
    PreviewProportionalIff(FbPost, innerHeight);
  }

  /** The crop tool's state. */
  class CropEditor {
    var fitMode: FitMode
    var background: Background
    var ratio: Option<real>
    var activePreset: Option<PlatformItem>
    var showExport: bool
    var fileName: string
    var format: string
    var quality: real

    /** The initial state: "fill", "black", no ratio, no preset, "snapsizes.png" at 0.92. */
    constructor ()
      ensures fitMode == Fill && background == Black && ratio == None && activePreset == None
      ensures !showExport && fileName == "snapsizes" && format == "png" && quality == 0.92
    {
      fitMode := Fill;
      background := Black;
      ratio := None;
      activePreset := None;
      showExport := false;
      fileName := "snapsizes";
      format := "png";
      quality := 0.92;
    }

    /**
     * `applyPreset`: no preset changes nothing; a preset sets the highlighted preset, the
     * fit mode, the background, the preview ratio and the file name, and nothing else.
     */
    method ApplyPreset(preset: Option<PlatformItem>)
      modifies this`activePreset, this`fitMode, this`background, this`ratio, this`fileName
      ensures preset.None? ==> activePreset == old(activePreset) && fitMode == old(fitMode)
                               && background == old(background) && ratio == old(ratio) && fileName == old(fileName)
      ensures preset.Some? ==> activePreset == preset && fitMode == preset.value.fitMode
                               && background == preset.value.background && ratio == Some(preset.value.ratio)
                               && fileName == preset.value.filename
    {
      if preset.None? {
        return;
      }
      var p := preset.value;
      activePreset := preset;
      fitMode := p.fitMode;
      background := p.background;
      ratio := Some(p.ratio);
      fileName := p.filename;
    }

    /** The "Export Image" button. */
    method OpenExport()
      modifies this`showExport
      ensures showExport
    {
      showExport := true;
    }

    /** The panel's backdrop and "Cancel". */
    method CloseExport()
      modifies this`showExport
      ensures !showExport
    {
      showExport := false;
    }

    /** The file name box. */
    method SetFileName(name: string)
      modifies this`fileName
      ensures fileName == name
    {
      fileName := name;
    }

    /** The format radio buttons: "png" or "jpg". */
    method SetFormat(f: string)
      requires f == "png" || f == "jpg"
      modifies this`format
      ensures format == f
    {
      format := f;
    }

    /** The quality slider, 0.85 to 1. */
    method SetQuality(q: real)
      requires 0.85 <= q <= 1.0
      modifies this`quality
      ensures quality == q
    {
      quality := q;
    }

    /**
     * `handleExport`: without a picture or a size nothing happens.  Otherwise the canvas
     * takes the size, the backdrop ("fit" only) and the picture are drawn, the result is
     * saved as `${fileName}.${format}` and the panel closes.
     */
    method HandleExport(image: Option<Dims>, size: Option<PlatformItem>) returns (saved: Option<Download>)
      modifies this`showExport
      ensures image.None? || size.None? ==> saved == None && showExport == old(showExport)
      ensures image.Some? && size.Some? ==>
                saved == Some(ExportOf(image.value, fitMode, background, fileName, format, quality, size.value))
                && !showExport
    {
      if image.None? || size.None? {
        return None;
      }
      var d, s := image.value, size.value;
      var W, H := s.width as real, s.height as real;
      var backdrop := None;
      if fitMode == Fit {
        if background == Black {
          backdrop := Some(Solid(BlackFill));
        }
        if background == White {
          backdrop := Some(Solid(WhiteFill));
        }
        if background == Blur {
          var iw, ih := d.w as real, d.h as real;
          backdrop := Some(BlurredCopy(Centered(iw, ih, W, H, CoverScale(iw, ih, W, H))));
        }
      }
      var picture := ImageRect(d, fitMode, W, H);
      var canvas := ExportCanvas(s.width, s.height, backdrop, picture);
      var encoding := if format == "jpg" then Jpeg(quality) else Png;
      saved := Some(Download(fileName + "." + format, encoding, canvas));
      showExport := false;
    }
  }
}
