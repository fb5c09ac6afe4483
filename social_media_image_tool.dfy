/**
 * The Social Media Image Tool (src/pages/SocialMediaImageTool.jsx).  One picture is
 * drawn on a canvas of the size of the chosen preset: first a background (a blurred,
 * darkened cover-scaled copy of the picture, or a white or black fill), then the picture
 * itself, covering the canvas in "cover" mode and contained in it otherwise.  The
 * foreground rectangle is chosen by comparing the picture's aspect ratio with the
 * canvas's rather than by a min/max of scales.
 *
 * Decoding, the blur filter and `toDataURL` are opaque: the picture is its decoded
 * size, and the canvas is described by what is drawn on it.
 */
module SocialMediaImageTool {
  import opened Wrappers
  import opened Geometry
  import opened Text

  /** An entry of PRESETS; `ratio` is the caption shown under the label. */
  datatype Preset = Preset(id: string, caption: string, width: Pixels, height: Pixels, ratio: string)

  /** PRESETS. */
  const Presets: seq<Preset> := [
    Preset("ig-post", "Instagram Post", 1080, 1080, "1:1 Square"),
    Preset("ig-story", "Reels, Stories, YouTube Shorts", 1080, 1920, "9:16 Vertical"),
    Preset("yt-thumb", "YouTube Thumbnail", 1280, 720, "16:9 Wide"),
    Preset("li-post", "LinkedIn Post", 1200, 627, "1.91:1 Landscape"),
    Preset("wa-dp", "WhatsApp DP", 500, 500, "1:1 Square")
  ]

  /** The preset cards are keyed and highlighted by id, so the ids are distinct. */
  lemma PresetIdsDistinct()
    ensures |Presets| == 5
    ensures forall a, b :: 0 <= a < b < |Presets| ==> Presets[a].id != Presets[b].id
  {
  }

  /** The four fitting-mode buttons: "blur", "cover", "contain-white" and "contain-black". */
  datatype FitMode = Blur | Cover | ContainWhite | ContainBlack

  /** The two format buttons: "image/jpeg" and "image/png". */
  datatype ExportFormat = Jpeg | Png

  function Mime(f: ExportFormat): string
  {
    if f == Jpeg then "image/jpeg" else "image/png"
  }

  /** The extension of the download: "jpg" for JPEG, "png" otherwise. */
  function Ext(f: ExportFormat): string
  {
    if f == Jpeg then "jpg" else "png"
  }

  /** The background layer: the blurred copy drawn at a rectangle, or a solid fill. */
  datatype Background = Blurred(r: Rect) | Solid(color: string)

  /** What `drawCanvas` leaves on the canvas. */
  datatype Drawing = Drawing(width: int, height: int, background: Background, foreground: Rect)

  const White: string := "#ffffff"
  const Black: string := "#000000"

  // ---------------------------------------------------------------------------
  // Geometry

  /**
   * The foreground rectangle on a w × h canvas: with `imgRatio = iw / ih` and
   * `canvasRatio = w / h`, "cover" pins the height when the picture is relatively wider
   * and the width otherwise; every other mode does the opposite.  Then it is centred.
   */
  function Foreground(d: Dims, w: Pixels, h: Pixels, mode: FitMode): Rect
  {
    var imgRatio := d.w as real / d.h as real;
    var canvasRatio := w as real / h as real;
    var W, H := w as real, h as real;
    var size :=
      if mode == Cover then
        if imgRatio > canvasRatio then (H * imgRatio, H) else (W, W / imgRatio)
      else
        if imgRatio > canvasRatio then (W, W / imgRatio) else (H * imgRatio, H);
    Rect((W - size.0) / 2.0, (H - size.1) / 2.0, size.0, size.1)
  }

  /**
   * The ratio comparison picks the same rectangle as the scale form: "cover" is the
   * cover rectangle, `max(w / iw, h / ih)`, and the other modes the contain rectangle,
   * `min(w / iw, h / ih)`.
   */
  lemma {:induction false} ForegroundIsScaleForm(d: Dims, w: Pixels, h: Pixels, mode: FitMode)
    ensures var iw, ih := d.w as real, d.h as real;
            Foreground(d, w, h, mode)
              == if mode == Cover then CoverRect(iw, ih, w as real, h as real) else ContainRect(iw, ih, w as real, h as real)
  {
    var iw, ih, W, H := d.w as real, d.h as real, w as real, h as real;
    if iw / ih > W / H {
      ForegroundWider(d, w, h, mode);
    } else {
      ForegroundNarrower(d, w, h, mode);
    }
  }

  /** A picture relatively wider than the canvas: "cover" pins the height, the others the width. */
  lemma {:induction false} ForegroundWider(d: Dims, w: Pixels, h: Pixels, mode: FitMode)
    requires d.w as real / d.h as real > w as real / h as real
    ensures var iw, ih := d.w as real, d.h as real;
            Foreground(d, w, h, mode)
              == if mode == Cover then CoverRect(iw, ih, w as real, h as real) else ContainRect(iw, ih, w as real, h as real)
  {
    var iw, ih, W, H := d.w as real, d.h as real, w as real, h as real;
    ScalesWhenWider(iw, ih, W, H);
    if mode == Cover {
      RatioProduct(H, iw, ih);
    } else {
      RatioStep(W, iw, ih);
    }
  }

  /** Otherwise "cover" pins the width and the others the height. */
  lemma {:induction false} ForegroundNarrower(d: Dims, w: Pixels, h: Pixels, mode: FitMode)
    requires !(d.w as real / d.h as real > w as real / h as real)
    ensures var iw, ih := d.w as real, d.h as real;
            Foreground(d, w, h, mode)
              == if mode == Cover then CoverRect(iw, ih, w as real, h as real) else ContainRect(iw, ih, w as real, h as real)
  {
    var iw, ih, W, H := d.w as real, d.h as real, w as real, h as real;
    ScalesWhenNarrower(iw, ih, W, H);
    if mode == Cover {
      RatioStep(W, iw, ih);
    } else {
      RatioProduct(H, iw, ih);
    }
  }

  /** `h * (iw / ih) == iw * (h / ih)`. */
  lemma RatioProduct(h: real, iw: real, ih: real)
    requires ih > 0.0
    ensures h * (iw / ih) == iw * (h / ih)
  {
  }

  /** A picture relatively wider than the canvas is covered by its height and contained by its width. */
  lemma ScalesWhenWider(iw: real, ih: real, W: real, H: real)
    requires iw > 0.0 && ih > 0.0 && W > 0.0 && H > 0.0 && iw / ih > W / H
    ensures CoverScale(iw, ih, W, H) == H / ih && ContainScale(iw, ih, W, H) == W / iw
  {
    CrossCompare(iw, ih, W, H);
    CrossCompare(H, ih, W, iw);
  }

  /** Otherwise it is covered by its width and contained by its height. */
  lemma ScalesWhenNarrower(iw: real, ih: real, W: real, H: real)
    requires iw > 0.0 && ih > 0.0 && W > 0.0 && H > 0.0 && !(iw / ih > W / H)
    ensures CoverScale(iw, ih, W, H) == W / iw && ContainScale(iw, ih, W, H) == H / ih
  {
    CrossCompare(iw, ih, W, H);
    CrossCompare(H, ih, W, iw);
  }

  /**
   * So "cover" covers the canvas and the contain modes lie inside it; in every mode the
   * picture meets the canvas edge on one axis, keeps its proportions and is centred.
   */
  lemma {:induction false} ForegroundFits(d: Dims, w: Pixels, h: Pixels, mode: FitMode)
    ensures var r := Foreground(d, w, h, mode);
            (mode == Cover ==> Covers(r, w as real, h as real))
            && (mode != Cover ==> Inside(r, w as real, h as real))
            && TightOnOneAxis(r, w as real, h as real)
            && KeepsAspect(r, d.w as real, d.h as real) && CentredOn(r, w as real, h as real)
  {
    ForegroundIsScaleForm(d, w, h, mode);
  }

  /**
   * The background: in "blur" mode the picture scaled by `max(w / iw, h / ih)` and
   * centred; otherwise white for "contain-white" and black for every other mode.
   */
  function BackgroundOf(d: Dims, w: Pixels, h: Pixels, mode: FitMode): Background
  {
    if mode == Blur then
      var bgScale := Max(w as real / d.w as real, h as real / d.h as real);
      var bgW, bgH := d.w as real * bgScale, d.h as real * bgScale;
      Blurred(Rect((w as real - bgW) / 2.0, (h as real - bgH) / 2.0, bgW, bgH))
    else Solid(if mode == ContainWhite then White else Black)
  }

  /**
   * The blurred backdrop is the cover rectangle, so it leaves no part of the canvas
   * bare; "cover" mode fills black under the picture, like "contain-black".
   */
  lemma {:induction false} BackgroundCovers(d: Dims, w: Pixels, h: Pixels, mode: FitMode)
    ensures var b := BackgroundOf(d, w, h, mode);
            (mode == Blur ==> b == Blurred(CoverRect(d.w as real, d.h as real, w as real, h as real))
                              && Covers(b.r, w as real, h as real))
            && (mode == ContainWhite ==> b == Solid(White))
            && (mode == Cover || mode == ContainBlack ==> b == Solid(Black))
  {
  }

  /** `drawCanvas`: the canvas takes the preset's size and gets both layers. */
  function Draw(d: Dims, p: Preset, mode: FitMode): Drawing
  {
    Drawing(p.width, p.height, BackgroundOf(d, p.width, p.height, mode), Foreground(d, p.width, p.height, mode))
  }

  // ---------------------------------------------------------------------------
  // Names

  /** `file.name.split(".")[0]`: the name up to its first '.'. */
  function BaseName(name: string): (b: string)
    ensures StartsWith(name, b) && '.' !in b
    ensures |b| < |name| ==> name[|b|] == '.'
  {
    BeforeFirst(name, '.')
  }

  /** `SnapSizes_${label with each whitespace run turned into "_"}_${fileName}.${jpg|png}`. */
  function DownloadName(p: Preset, fileName: string, format: ExportFormat): string
  {
    "SnapSizes_" + UnderscoreWhitespace(p.caption) + "_" + fileName + "." + Ext(format)
  }

  /**
   * The label part of the name has no whitespace left, and a label without whitespace
   * is kept as it is.
   */
  lemma {:induction false} DownloadNameParts(p: Preset)
    ensures var clean := UnderscoreWhitespace(p.caption);
            NoWhitespace(clean) && (NoWhitespace(p.caption) ==> clean == p.caption)
  {
    if NoWhitespace(p.caption) {
      UnderscoreWhitespaceIdentity(p.caption);
    }
  }

  /** "Instagram Post" becomes "Instagram_Post". */
  lemma IgPostLabel()
    ensures UnderscoreWhitespace(Presets[0].caption) == "Instagram" + "_" + "Post"
  {
    UnderscoreTwoWords(Presets[0].caption, "Instagram", "Post");
  }

  /** "Reels, Stories, YouTube Shorts" becomes "Reels,_Stories,_YouTube_Shorts": one underscore per space. */
  lemma IgStoryLabel()
    ensures UnderscoreWhitespace(Presets[1].caption) == "Reels," + "_" + ("Stories," + "_" + ("YouTube" + "_" + "Shorts"))
  {
    StoryCaptionWords(Presets[1].caption);
    UnderscoreFourWords(Presets[1].caption, "Reels,", "Stories,", "YouTube", "Shorts");
  }

  /** The ig-story label, word by word. */
  lemma StoryCaptionWords(c: string)
    requires c == "Reels, Stories, YouTube Shorts"
    ensures c == "Reels," + " " + ("Stories," + " " + ("YouTube" + " " + "Shorts"))
  {
  }

  /** "YouTube Thumbnail" becomes "YouTube_Thumbnail". */
  lemma YtThumbLabel()
    ensures UnderscoreWhitespace(Presets[2].caption) == "YouTube" + "_" + "Thumbnail"
  {
    UnderscoreTwoWords(Presets[2].caption, "YouTube", "Thumbnail");
  }

  /** "LinkedIn Post" becomes "LinkedIn_Post". */
  lemma LiPostLabel()
    ensures UnderscoreWhitespace(Presets[3].caption) == "LinkedIn" + "_" + "Post"
  {
    UnderscoreTwoWords(Presets[3].caption, "LinkedIn", "Post");
  }

  /** "WhatsApp DP" becomes "WhatsApp_DP". */
  lemma WaDpLabel()
    ensures UnderscoreWhitespace(Presets[4].caption) == "WhatsApp" + "_" + "DP"
  {
    UnderscoreTwoWords(Presets[4].caption, "WhatsApp", "DP");
  }

  /**
   * Two words separated by one whitespace character, as in "Instagram Post", are joined
   * by one underscore: "Instagram_Post".
   */
  lemma {:induction false} TwoWordCaption(a: string, c: char, b: string)
    requires NoWhitespace(a) && IsJsWhitespace(c) && NoWhitespace(b) && b != []
    ensures UnderscoreWhitespace(a + [c] + b) == a + "_" + b
  {
    assert a + [c] + b == a + ([c] + b);
    UnderscoreWhitespacePrefix(a, [c] + b);
    UnderscoreWhitespaceSpace(c, b);
  }

  /** `upload` passes the filter: a file was chosen and its type starts with "image/". */
  predicate Accepts(file: Option<(string, string)>)
  {
    file.Some? && StartsWith(file.value.1, "image/")
  }

  /** The page state. */
  class SocialTool {
    var sourceImage: Option<Dims>
    var fileName: string
    var selectedPreset: Preset
    var fitMode: FitMode
    var exportFormat: ExportFormat
    var quality: real
    var isProcessing: bool
    var isDecoding: bool
    /** The canvas element, present once a picture is shown, and what is drawn on it. */
    var canvas: Option<Drawing>

    /** The initial state: no picture, the first preset, "blur", JPEG at 0.9. */
    constructor ()
      ensures sourceImage == None && fileName == [] && selectedPreset == Presets[0] && fitMode == Blur
      ensures exportFormat == Jpeg && quality == 0.9 && !isProcessing && !isDecoding && canvas == None
    {
      sourceImage := None;
      fileName := [];
      selectedPreset := Presets[0];
      fitMode := Blur;
      exportFormat := Jpeg;
      quality := 0.9;
      isProcessing := false;
      isDecoding := false;
      canvas := None;
    }

    /**
     * `handleFileUpload` with the first chosen file, as (name, MIME type): a missing or
     * non-image file is ignored; otherwise decoding starts and the name up to its first
     * '.' becomes the file name.
     */
    method HandleFileUpload(file: Option<(string, string)>)
      modifies this`isDecoding, this`fileName
      ensures !Accepts(file) ==> isDecoding == old(isDecoding) && fileName == old(fileName)
      ensures Accepts(file) ==> isDecoding && fileName == BaseName(file.value.0)
    {
      if file.None? || !StartsWith(file.value.1, "image/") {
        return;
      }
      isDecoding := true;
      fileName := BaseName(file.value.0);
    }

    /** `img.onload`: the decoded picture becomes the source and decoding ends. */
    method ImageLoaded(d: Dims)
      modifies this`sourceImage, this`isDecoding
      ensures sourceImage == Some(d) && !isDecoding
    {
      sourceImage := Some(d);
      isDecoding := false;
    }

    /** `img.onerror`: decoding ends and the source stays as it was. */
    method ImageFailed()
      modifies this`isDecoding
      ensures !isDecoding
    {
      isDecoding := false;
    }

    /** The canvas element appears once there is a picture. */
    method MountCanvas()
      requires sourceImage.Some?
      modifies this`canvas
      ensures canvas.Some?
    {
      if canvas.None? {
        canvas := Some(Drawing(300, 150, Solid(Black), Rect(0.0, 0.0, 0.0, 0.0)));
      }
    }

    /** `drawCanvas`: nothing without a picture or a canvas; otherwise the picture is drawn for the preset. */
    method DrawCanvas()
      modifies this`canvas
      ensures if sourceImage.Some? && old(canvas).Some? then canvas == Some(Draw(sourceImage.value, selectedPreset, fitMode))
              else canvas == old(canvas)
    {
      if sourceImage.None? || canvas.None? {
        return;
      }
      canvas := Some(Draw(sourceImage.value, selectedPreset, fitMode));
    }

    /** A preset card: the preset is chosen and the canvas redrawn. */
    method SelectPreset(p: Preset)
      modifies this`selectedPreset, this`canvas
      ensures selectedPreset == p
      ensures canvas.Some? <==> old(canvas).Some?
      ensures canvas.Some? && sourceImage.Some? ==>
                canvas.value.width == p.width && canvas.value.height == p.height
    {
      selectedPreset := p;
      DrawCanvas();
    }

    /**
     * `handleDownload`: processing starts; with a canvas, it is encoded with the chosen
     * type and quality and saved under DownloadName, and processing ends.  Without a
     * canvas the handler returns early and processing is never switched off.
     */
    method HandleDownload() returns (saved: Option<(string, string, real)>)
      modifies this`isProcessing
      ensures canvas.None? ==> saved == None && isProcessing
      ensures canvas.Some? ==> saved == Some((DownloadName(selectedPreset, fileName, exportFormat), Mime(exportFormat), quality))
                               && !isProcessing
    {
      isProcessing := true;
      if canvas.None? {
        return None;
      }
      saved := Some((DownloadName(selectedPreset, fileName, exportFormat), Mime(exportFormat), quality));
      isProcessing := false;
    }
  }
}
