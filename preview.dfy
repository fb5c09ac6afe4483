/**
 * The crop tool's live preview (src/tools/Preview.jsx).  `draw` sizes a canvas of at
 * most 360 pixels' width from the chosen aspect ratio and the window height, paints a
 * backdrop in "fit" mode, draws the picture scaled by `Math.min` ("fit") or `Math.max`
 * (any other mode) of the two axis ratios and centred, and writes the watermark text
 * on top when it is not blank.  The watermark is dragged with the mouse or a finger.
 *
 * The backdrop and picture rectangles are the functions the crop tool's export uses
 * too (src/tools/CropTool.jsx repeats the same code on the export canvas).  Decoding,
 * the blur filter and the font are opaque: a picture is its decoded size and a canvas
 * is described by what is drawn on it.
 */
module Preview {
  import opened Wrappers
  import opened Geometry
  import opened Text
  import opened Rounding
  import opened FitModes

  /** `maxWidth`: the preview is 360 canvas units wide unless its ratio makes it narrower. */
  const MaxWidth: real := 360.0

  /** `maxHeight`: 60% of the window height, but no more than 520. */
  function MaxHeight(innerHeight: real): real
  {
    Min(innerHeight * 0.6, 520.0)
  }

  /** `if (ratio)`: a ratio is used when it is present and not zero. */
  predicate HasRatio(ratio: Option<real>)
  {
    ratio.Some? && ratio.value != 0.0
  }

  /** The unrounded preview canvas `(cw, ch)` that `draw` computes. */
  function PreviewSize(ratio: Option<real>, innerHeight: real): (real, real)
  {
    if !HasRatio(ratio) then (MaxWidth, MaxHeight(innerHeight))
    else if ratio.value > 1.0 then (MaxWidth, MaxWidth / ratio.value)
    else (MaxHeight(innerHeight) * ratio.value, MaxHeight(innerHeight))
  }

  /**
   * Without a ratio the canvas is 360 × maxHeight.  With one, the canvas has exactly the
   * requested proportions: a ratio above 1 keeps the full width (and the canvas is then
   * lower than wide), any other keeps the full height.  A positive ratio on a window of
   * positive height gives a canvas of positive size.
   */
  lemma PreviewSizeKeepsRatio(ratio: Option<real>, innerHeight: real)
    ensures var size := PreviewSize(ratio, innerHeight);
            (!HasRatio(ratio) ==> size == (MaxWidth, MaxHeight(innerHeight)))
            && (HasRatio(ratio) ==> size.0 == ratio.value * size.1)
            && (HasRatio(ratio) && ratio.value > 1.0 ==> size.0 == MaxWidth && size.1 < MaxWidth)
            && (HasRatio(ratio) && ratio.value <= 1.0 ==> size.1 == MaxHeight(innerHeight))
            && (innerHeight > 0.0 && (HasRatio(ratio) ==> ratio.value > 0.0) ==> size.0 > 0.0 && size.1 > 0.0)
  {
    if HasRatio(ratio) && ratio.value > 1.0 {
      var r := ratio.value;
      assert r * (MaxWidth / r) == MaxWidth;
    }
  }

  /** A CSS colour as its red, green and blue components. */
  datatype Color = Rgb(red: int, green: int, blue: int)

  /** "#000". */
  const BlackFill: Color := Rgb(0, 0, 0)
  /** "#fff". */
  const WhiteFill: Color := Rgb(255, 255, 255)

  /** A backdrop layer: a solid fill, or the blurred copy of the picture at a rectangle. */
  datatype Layer = Solid(color: Color) | BlurredCopy(r: Rect)

  /**
   * What `draw` paints under the picture on a cw × ch canvas: only in "fit" mode, a black
   * or white fill, or for "blur" the picture scaled by `Math.max(cw / iw, ch / ih)` and
   * centred.
   */
  function Backdrop(d: Dims, fitMode: FitMode, background: Background, cw: real, ch: real): Option<Layer>
  {
    if fitMode != Fit then None
    else if background == Black then Some(Solid(BlackFill))
    else if background == White then Some(Solid(WhiteFill))
    else
      var iw, ih := d.w as real, d.h as real;
      Some(BlurredCopy(Centered(iw, ih, cw, ch, CoverScale(iw, ih, cw, ch))))
  }

  /**
   * A backdrop is painted only in "fit" mode; the blurred copy is the cover rectangle and
   * leaves no part of the canvas bare.
   */
  lemma BackdropCovers(d: Dims, fitMode: FitMode, background: Background, cw: real, ch: real)
    ensures var b := Backdrop(d, fitMode, background, cw, ch);
            (b.Some? ==> fitMode == Fit)
            && (fitMode == Fit && background == Black ==> b == Some(Solid(BlackFill)))
            && (fitMode == Fit && background == White ==> b == Some(Solid(WhiteFill)))
            && (fitMode == Fit && background == Blur ==>
                  b == Some(BlurredCopy(CoverRect(d.w as real, d.h as real, cw, ch)))
                  && Covers(b.value.r, cw, ch))
  {
  }

  /** Where `draw` puts the picture: scaled by min ("fit") or max (any other mode) and centred. */
  function ImageRect(d: Dims, fitMode: FitMode, cw: real, ch: real): Rect
  {
    var iw, ih := d.w as real, d.h as real;
    Centered(iw, ih, cw, ch, if fitMode == Fit then ContainScale(iw, ih, cw, ch) else CoverScale(iw, ih, cw, ch))
  }

  /**
   * "fit" shows the whole picture inside the canvas, every other mode covers the canvas;
   * either way the picture keeps its proportions, is centred and meets the canvas edge on
   * one axis.
   */
  lemma ImageRectFits(d: Dims, fitMode: FitMode, cw: real, ch: real)
    requires cw >= 0.0 && ch >= 0.0
    ensures var r := ImageRect(d, fitMode, cw, ch);
            (fitMode == Fit ==> r == ContainRect(d.w as real, d.h as real, cw, ch) && Inside(r, cw, ch))
            && (fitMode != Fit ==> r == CoverRect(d.w as real, d.h as real, cw, ch) && Covers(r, cw, ch))
            && KeepsAspect(r, d.w as real, d.h as real) && CentredOn(r, cw, ch) && TightOnOneAxis(r, cw, ch)
  {
  }

  /** A backdrop on a canvas scaled by k: fills stay, the blurred copy scales with it. */
  function ScaleLayer(b: Option<Layer>, k: real): Option<Layer>
  {
    if b.Some? && b.value.BlurredCopy? then Some(BlurredCopy(Scaled(b.value.r, k))) else b
  }

  /**
   * On a canvas scaled by k > 0 the picture is the one of the original canvas scaled
   * by k: the drawing depends only on the canvas proportions.
   */
  lemma ImageRectScales(d: Dims, fitMode: FitMode, cw: real, ch: real, k: real)
    requires cw >= 0.0 && ch >= 0.0 && k > 0.0
    ensures ImageRect(d, fitMode, k * cw, k * ch) == Scaled(ImageRect(d, fitMode, cw, ch), k)
  {
    var iw, ih := d.w as real, d.h as real;
    if fitMode == Fit {
      ContainScaleInvariant(iw, ih, cw, ch, k);
    } else {
      CoverScaleInvariant(iw, ih, cw, ch, k);
    }
  }

  /** The same for the backdrop: fills stay, the blurred copy scales with the canvas. */
  lemma BackdropScales(d: Dims, fitMode: FitMode, background: Background, cw: real, ch: real, k: real)
    requires k > 0.0
    ensures Backdrop(d, fitMode, background, k * cw, k * ch) == ScaleLayer(Backdrop(d, fitMode, background, cw, ch), k)
  {
    if fitMode == Fit && background == Blur {
      CoverScaleInvariant(d.w as real, d.h as real, cw, ch, k);
    }
  }

  /** A cursor position in canvas coordinates. */
  datatype Point = Point(x: real, y: real)

  /** The watermark as `fillText` writes it: white, bold, at the chosen alpha. */
  datatype Watermark = Watermark(text: string, at: Point, fontSize: int, alpha: real, color: Color)

  /** `if (text.trim())`: the watermark is written only when the text is not blank. */
  function WatermarkOf(text: string, opacity: real, fontSize: int, pos: Point): Option<Watermark>
  {
    if !Blank(text) then Some(Watermark(text, pos, fontSize, opacity, WhiteFill)) else None
  }

  /**
   * The watermark appears exactly when `text.trim()` is not empty, that is when the text
   * holds a non-whitespace character, and it is then the text, white, at the mark.
   */
  lemma WatermarkShownIff(text: string, opacity: real, fontSize: int, pos: Point)
    ensures WatermarkOf(text, opacity, fontSize, pos).Some? <==> Trim(text) != []
    ensures (WatermarkOf(text, opacity, fontSize, pos).Some?
             <==> exists i :: 0 <= i < |text| && !IsJsWhitespace(text[i]))
    ensures WatermarkOf(text, opacity, fontSize, pos).Some? ==>
              WatermarkOf(text, opacity, fontSize, pos) == Some(Watermark(text, pos, fontSize, opacity, WhiteFill))
  {
    BlankIff(text);
    BlankAll(text);
  }

  /** What one `draw` leaves on the preview canvas. */
  datatype Frame = Frame(width: int, height: int, backdrop: Option<Layer>, image: Rect, watermark: Option<Watermark>)

  /** The frame `draw` produces for a decoded picture and the current settings. */
  function Render(d: Dims, fitMode: FitMode, background: Background, ratio: Option<real>, innerHeight: real,
                  text: string, opacity: real, fontSize: int, pos: Point): Frame
  {
    var size := PreviewSize(ratio, innerHeight);
    var cw, ch := size.0, size.1;
    Frame(Round(cw), Round(ch), Backdrop(d, fitMode, background, cw, ch), ImageRect(d, fitMode, cw, ch),
          WatermarkOf(text, opacity, fontSize, pos))
  }

  /**
   * The canvas takes the rounded size of `PreviewSize` (whose proportions are the ratio's,
   * by `PreviewSizeKeepsRatio`), and the picture is placed on the unrounded size: inside
   * it in "fit" mode, covering it otherwise.
   */
  lemma {:induction false} RenderSize(d: Dims, fitMode: FitMode, background: Background, r: real, innerHeight: real,
                                      text: string, opacity: real, fontSize: int, pos: Point)
    requires r > 0.0 && innerHeight > 0.0
    ensures var f := Render(d, fitMode, background, Some(r), innerHeight, text, opacity, fontSize, pos);
            var cw, ch := PreviewSize(Some(r), innerHeight).0, PreviewSize(Some(r), innerHeight).1;
            f.width as real - 0.5 <= cw < f.width as real + 0.5
            && f.height as real - 0.5 <= ch < f.height as real + 0.5
            && (fitMode == Fit ==> Inside(f.image, cw, ch))
            && (fitMode != Fit ==> Covers(f.image, cw, ch))
  {
    var size := PreviewSize(Some(r), innerHeight);
    PreviewSizeKeepsRatio(Some(r), innerHeight);
    RenderAt(d, fitMode, background, Some(r), innerHeight, text, opacity, fontSize, pos, size.0, size.1);
    ImageRectFits(d, fitMode, size.0, size.1);
  }

  /** The frame drawn on the canvas size `PreviewSize` gives. */
  lemma RenderAt(d: Dims, fitMode: FitMode, background: Background, ratio: Option<real>, innerHeight: real,
                 text: string, opacity: real, fontSize: int, pos: Point, cw: real, ch: real)
    requires cw == PreviewSize(ratio, innerHeight).0 && ch == PreviewSize(ratio, innerHeight).1
    ensures Render(d, fitMode, background, ratio, innerHeight, text, opacity, fontSize, pos)
              == Frame(Round(cw), Round(ch), Backdrop(d, fitMode, background, cw, ch), ImageRect(d, fitMode, cw, ch),
                       WatermarkOf(text, opacity, fontSize, pos))
  {
  }

  /** The first half of `draw`: start from maxWidth × maxHeight and give up one side to the ratio. */
  method SizeCanvas(ratio: Option<real>, innerHeight: real) returns (cw: real, ch: real)
    ensures cw == PreviewSize(ratio, innerHeight).0 && ch == PreviewSize(ratio, innerHeight).1
  {
    cw, ch := MaxWidth, MaxHeight(innerHeight);
    if HasRatio(ratio) {
      var r := ratio.value;
      if r > 1.0 {
        ch := MaxWidth / r;
      } else {
        cw := MaxHeight(innerHeight) * r;
      }
    }
  }

  /** The preview component: its canvas, the decoded picture and the watermark state. */
  class PreviewCanvas {
    /** `canvasRef.current` is attached. */
    var mounted: bool
    /** `imgRef.current`: the decoded picture, once loaded. */
    var image: Option<Dims>
    /** The last frame drawn, if any. */
    var frame: Option<Frame>
    /** The context's `globalAlpha`. */
    var globalAlpha: real
    var text: string
    var opacity: real
    var fontSize: int
    var pos: Point
    var dragging: bool

    /** The alpha is back at 1 between draws. */
    predicate Valid()
      reads this
    {
      globalAlpha == 1.0
    }

    /** The initial state: no text, opacity 0.6, size 24, the mark at (40, 40), not dragging. */
    constructor (mounted: bool)
      ensures Valid()
      ensures this.mounted == mounted && image == None && frame == None
      ensures text == [] && opacity == 0.6 && fontSize == 24 && pos == Point(40.0, 40.0) && !dragging
    {
      this.mounted := mounted;
      image := None;
      frame := None;
      globalAlpha := 1.0;
      text := [];
      opacity := 0.6;
      fontSize := 24;
      pos := Point(40.0, 40.0);
      dragging := false;
    }

    /**
     * `draw`: nothing without a canvas or a picture; otherwise the canvas is sized from
     * the ratio and drawn, and the alpha set for the watermark is put back to 1.
     */
    method Draw(fitMode: FitMode, background: Background, ratio: Option<real>, innerHeight: real)
      requires Valid()
      modifies this`frame, this`globalAlpha
      ensures Valid()
      ensures mounted && image.Some? ==>
                frame == Some(Render(image.value, fitMode, background, ratio, innerHeight, text, opacity, fontSize, pos))
      ensures !mounted || image.None? ==> frame == old(frame)
    {
      if mounted && image.Some? {
        var f := Paint(image.value, fitMode, background, ratio, innerHeight);
        frame := Some(f);
      }
    }

    /** The drawing part of `draw` for a decoded picture: size the canvas, paint, write the mark. */
    method Paint(d: Dims, fitMode: FitMode, background: Background, ratio: Option<real>, innerHeight: real)
      returns (f: Frame)
      requires Valid()
      modifies this`globalAlpha
      ensures Valid()
      ensures f == Render(d, fitMode, background, ratio, innerHeight, text, opacity, fontSize, pos)
    {
      var cw, ch := SizeCanvas(ratio, innerHeight);
      var backdrop, picture := Backdrop(d, fitMode, background, cw, ch), ImageRect(d, fitMode, cw, ch);
      var mark := WriteWatermark();
      RenderAt(d, fitMode, background, ratio, innerHeight, text, opacity, fontSize, pos, cw, ch);
      f := Frame(Round(cw), Round(ch), backdrop, picture, mark);
    }

    /**
     * The last step of `draw`: a non-blank text is written at the chosen opacity, and the
     * alpha is put back to 1 afterwards.
     */
    method WriteWatermark() returns (mark: Option<Watermark>)
      modifies this`globalAlpha
      ensures mark == WatermarkOf(text, opacity, fontSize, pos)
      ensures globalAlpha == if mark.Some? then 1.0 else old(globalAlpha)
    {
      BlankIff(text);
      mark := None;
      if Trim(text) != [] {
        globalAlpha := opacity;
        mark := Some(Watermark(text, pos, fontSize, globalAlpha, WhiteFill));
        globalAlpha := 1.0;
      }
    }

    /** `img.onload`: the picture is kept and drawn. */
    method ImageLoaded(d: Dims, fitMode: FitMode, background: Background, ratio: Option<real>, innerHeight: real)
      requires Valid()
      modifies this`image, this`frame, this`globalAlpha
      ensures Valid() && image == Some(d)
      ensures mounted ==> frame == Some(Render(d, fitMode, background, ratio, innerHeight, text, opacity, fontSize, pos))
      ensures !mounted ==> frame == old(frame)
    {
      image := Some(d);
      Draw(fitMode, background, ratio, innerHeight);
    }

    /** The watermark text box. */
    method SetText(t: string)
      modifies this`text
      ensures text == t
    {
      text := t;
    }

    /** The size slider, 12 to 48. */
    method SetFontSize(s: int)
      requires 12 <= s <= 48
      modifies this`fontSize
      ensures fontSize == s
    {
      fontSize := s;
    }

    /** The opacity slider, 0.2 to 1. */
    method SetOpacity(o: real)
      requires 0.2 <= o <= 1.0
      modifies this`opacity
      ensures opacity == o
    {
      opacity := o;
    }

    /** `startDrag`: dragging starts only when there is watermark text. */
    method StartDrag()
      modifies this`dragging
      ensures dragging == (old(dragging) || text != [])
    {
      if text == [] {
        return;
      }
      dragging := true;
    }

    /** `endDrag`, on mouse or touch release or when the cursor leaves. */
    method EndDrag()
      modifies this`dragging
      ensures !dragging
    {
      dragging := false;
    }

    /**
     * A cursor move at client (x, y) over a canvas whose box starts at (left, top):
     * while dragging, the mark moves to the cursor in canvas coordinates; otherwise
     * nothing happens.
     */
    method MoveDrag(x: real, y: real, left: real, top: real)
      modifies this`pos
      ensures dragging ==> pos == Point(x - left, y - top) && pos.x + left == x && pos.y + top == y
      ensures !dragging ==> pos == old(pos)
    {
      if dragging {
        pos := Point(x - left, y - top);
      }
    }
  }
}
