/**
 * `generatePdf` of src/utils/pdfEngine.js: one jsPDF document in millimetres, one page
 * per image, each image placed in the printable area (the page minus the margin on
 * every side) by one of three modes and centred there; a progress percentage is
 * reported after every image.  jsPDF itself is reduced to the pages and the
 * `addImage` calls made on them.
 */
module PdfEngine {
  import opened Wrappers
  import opened Geometry
  import opened Rounding

  /** The keys of PAGE_SIZES. */
  datatype PageFormat = A4 | Letter | Legal

  datatype Orientation = Portrait | Landscape

  /** A page's size in millimetres. */
  datatype PageSize = PageSize(w: real, h: real)

  /** PAGE_SIZES: the portrait sizes, in millimetres, that jsPDF uses for each format. */
  function PageSizeOf(f: PageFormat): PageSize
  {
    match f
    case A4 => PageSize(210.0, 297.0)
    case Letter => PageSize(215.9, 279.4)
    case Legal => PageSize(215.9, 355.6)
  }

  /**
   * The settings object.  A missing page size or orientation is `None`; `margin` is
   * `None` when it is missing or 0 (`config.margin || 0`).
   */
  datatype PdfConfig = PdfConfig(pageSize: Option<PageFormat>, orientation: Option<Orientation>,
                                 margin: Option<real>, fitMode: string)

  /** An entry of `images`: its object URL and its rotation in degrees. */
  datatype PdfImage = PdfImage(url: string, rotation: int)

  /**
   * One `doc.addImage(url, "JPEG", x, y, w, h, null, "FAST", rotation)` call; the
   * format and compression arguments are the same for every call.
   */
  datatype Placement = Placement(url: string, box: Rect, rotation: int)

  /** Millimetres per CSS pixel at 96 DPI, the factor of the "original" mode. */
  const MmPerPixel: real := 0.264583

  /** `pageWidth`, `pageHeight`: the format (A4 by default), turned on its side for landscape. */
  function PageDims(config: PdfConfig): (p: PageSize)
    ensures p.w > 0.0 && p.h > 0.0
    ensures config.orientation == Some(Landscape) ==> p.w > p.h
    ensures config.orientation != Some(Landscape) ==> p.w < p.h
  {
    var size := PageSizeOf(if config.pageSize.Some? then config.pageSize.value else A4);
    if config.orientation == Some(Landscape) then PageSize(size.h, size.w) else size
  }

  /** `config.margin || 0`. */
  function Margin(config: PdfConfig): real
  {
    if config.margin.Some? then config.margin.value else 0.0
  }

  /** The printable area is not empty: the margins take less than the page on each axis. */
  predicate ValidConfig(config: PdfConfig)
  {
    var p := PageDims(config);
    2.0 * Margin(config) < p.w && 2.0 * Margin(config) < p.h
  }

  /** `availW`, `availH`: the page minus a margin on each side. */
  function Avail(config: PdfConfig): (a: PageSize)
    requires ValidConfig(config)
    ensures a.w > 0.0 && a.h > 0.0
  {
    var p := PageDims(config);
    PageSize(p.w - 2.0 * Margin(config), p.h - 2.0 * Margin(config))
  }

  /** `finalW`, `finalH` for an iw × ih image and an aw × ah printable area. */
  function FinalSize(d: Dims, aw: real, ah: real, fitMode: string): (r: PageSize)
    requires aw > 0.0 && ah > 0.0
  {
    var iw, ih := d.w as real, d.h as real;
    var imgRatio := iw / ih;
    var pageRatio := aw / ah;
    if fitMode == "fit" then
      if imgRatio > pageRatio then PageSize(aw, aw / imgRatio) else PageSize(ah * imgRatio, ah)
    else if fitMode == "fill" then
      PageSize(aw, aw / imgRatio)
    else
      var w, h := iw * MmPerPixel, ih * MmPerPixel;
      if w > aw then PageSize(aw, aw / imgRatio) else PageSize(w, h)
  }

  /** Where one image goes on its page: its final size, centred in the printable area. */
  function PlaceImage(img: PdfImage, d: Dims, config: PdfConfig): Placement
    requires ValidConfig(config)
  {
    var a := Avail(config);
    var m := Margin(config);
    var f := FinalSize(d, a.w, a.h, config.fitMode);
    Placement(img.url, Rect(m + (a.w - f.w) / 2.0, m + (a.h - f.h) / 2.0, f.w, f.h), img.rotation)
  }

  /** The pages of the finished document: image i alone on page i; one blank page when there are no images. */
  function Layout(images: seq<PdfImage>, dims: seq<Dims>, config: PdfConfig): seq<seq<Placement>>
    requires |dims| == |images| && ValidConfig(config)
  {
    if images == [] then [[]] else Pages(images, dims, config)
  }

  /** One page per image, in order. */
  function Pages(images: seq<PdfImage>, dims: seq<Dims>, config: PdfConfig): (pages: seq<seq<Placement>>)
    requires |dims| == |images| && ValidConfig(config)
    ensures |pages| == |images|
  {
    if images == [] then []
    else
      var n := |images| - 1;
      Pages(images[..n], dims[..n], config) + [[PlaceImage(images[n], dims[n], config)]]
  }

  /**
   * "fit" places exactly the contain rectangle: the image scaled by
   * `min(aw / iw, ah / ih)`, the largest scale at which it fits the printable area.
   */
  lemma FitIsContain(d: Dims, aw: real, ah: real)
    requires aw > 0.0 && ah > 0.0
    ensures var f := FinalSize(d, aw, ah, "fit");
            var s := ContainScale(d.w as real, d.h as real, aw, ah);
            f.w == d.w as real * s && f.h == d.h as real * s
  {
    var iw, ih := d.w as real, d.h as real;
    var f := FinalSize(d, aw, ah, "fit");
    CrossCompare(iw, ih, aw, ah);
    CrossCompare(ah, ih, aw, iw);
    if iw / ih > aw / ah {
      var k := aw / iw;
      assert ContainScale(iw, ih, aw, ah) == k;
      assert f.h == aw / (iw / ih);
      RatioStep(aw, iw, ih);
    } else {
      var k := ah / ih;
      assert ContainScale(iw, ih, aw, ah) == k;
      assert f.w == ah * (iw / ih);
      assert ah * (iw / ih) == iw * (ah / ih);
    }
  }

  /** r moved right and down by m. */
  function Shift(r: Rect, m: real): Rect
  {
    Rect(r.x + m, r.y + m, r.w, r.h)
  }

  /**
   * So in "fit" mode the image is placed exactly on the contain rectangle of the
   * printable area, moved in by the margin: it keeps its proportions, lies inside the
   * printable area, touches two opposite sides of it and is centred in it.
   */
  lemma {:induction false} FitPlacementIsContain(img: PdfImage, d: Dims, config: PdfConfig)
    requires ValidConfig(config) && config.fitMode == "fit"
    ensures var a := Avail(config);
            PlaceImage(img, d, config).box == Shift(ContainRect(d.w as real, d.h as real, a.w, a.h), Margin(config))
  {
    var a := Avail(config);
    FitIsContain(d, a.w, a.h);
  }

  /**
   * "fill" spans the printable width and keeps the proportions; the height is not
   * limited, so a tall image runs past the top and bottom of the page.
   */
  lemma FillSpansWidth(d: Dims, aw: real, ah: real)
    requires aw > 0.0 && ah > 0.0
    ensures var f := FinalSize(d, aw, ah, "fill");
            f.w == aw && f.w * d.h as real == f.h * d.w as real
  {
    var iw, ih := d.w as real, d.h as real;
    RatioStep(aw, iw, ih);
    assert ih * (aw / iw) * iw == ih * aw;
  }

  lemma FillOverflowsTallImage()
    ensures var c := PdfConfig(Some(A4), Some(Portrait), Some(10.0), "fill");
            ValidConfig(c) && FinalSize(Dims(100, 1000), Avail(c).w, Avail(c).h, "fill").h > Avail(c).h
  {
    var c := PdfConfig(Some(A4), Some(Portrait), Some(10.0), "fill");
    assert Avail(c) == PageSize(190.0, 277.0);
    assert (100 as real) / (1000 as real) == 0.1;
  }

  /**
   * Any other mode ("original") prints the image at its size at 96 DPI, unless that is
   * wider than the printable area, in which case it is shrunk to the printable width
   * with its proportions kept.  Only the width is capped.
   */
  lemma OriginalSize(d: Dims, aw: real, ah: real, fitMode: string)
    requires aw > 0.0 && ah > 0.0 && fitMode != "fit" && fitMode != "fill"
    ensures var f := FinalSize(d, aw, ah, fitMode);
            var w, h := d.w as real * MmPerPixel, d.h as real * MmPerPixel;
            (w <= aw ==> f == PageSize(w, h))
            && (w > aw ==> f.w == aw && f.w * d.h as real == f.h * d.w as real && f.h < h)
            && f.w <= aw
  {
    var iw, ih := d.w as real, d.h as real;
    var w, h := iw * MmPerPixel, ih * MmPerPixel;
    if w > aw {
      RatioStep(aw, iw, ih);
      var f := FinalSize(d, aw, ah, fitMode);
      assert f.h == ih * (aw / iw);
      assert ih * (aw / iw) * iw == ih * aw;
      assert aw / iw < MmPerPixel by {
        assert aw < MmPerPixel * iw;
        CrossCompare(MmPerPixel, 1.0, aw, iw);
      }
      MulStrictlyMonotone(ih, aw / iw, MmPerPixel);
    }
  }

  lemma OriginalOverflowsTallImage()
    ensures var c := PdfConfig(Some(A4), Some(Portrait), Some(10.0), "original");
            ValidConfig(c) && FinalSize(Dims(100, 2000), Avail(c).w, Avail(c).h, "original").h > Avail(c).h
  {
    var c := PdfConfig(Some(A4), Some(Portrait), Some(10.0), "original");
    assert Avail(c) == PageSize(190.0, 277.0);
  }

  /** Every mode centres the image in the printable area, on both axes. */
  lemma PlacementCentred(img: PdfImage, d: Dims, config: PdfConfig)
    requires ValidConfig(config)
    ensures var r := PlaceImage(img, d, config).box;
            var m, a := Margin(config), Avail(config);
            r.x - m == (m + a.w) - (r.x + r.w) && r.y - m == (m + a.h) - (r.y + r.h)
    ensures PlaceImage(img, d, config).url == img.url
    ensures PlaceImage(img, d, config).rotation == img.rotation
  {
  }

  /**
   * The document has one page per image (one blank page when there are none), and page
   * i holds image i alone, so the order of `images` is the order of the pages.
   */
  lemma {:induction false} LayoutPages(images: seq<PdfImage>, dims: seq<Dims>, config: PdfConfig)
    requires |dims| == |images| && ValidConfig(config)
    ensures var pages := Layout(images, dims, config);
            |pages| == (if images == [] then 1 else |images|)
            && (images == [] ==> pages[0] == [])
            && forall i :: 0 <= i < |images| ==> pages[i] == [PlaceImage(images[i], dims[i], config)]
  {
    forall i | 0 <= i < |images| ensures Layout(images, dims, config)[i] == [PlaceImage(images[i], dims[i], config)] {
      PagesAt(images, dims, config, i);
    }
  }

  lemma {:induction false} PagesAt(images: seq<PdfImage>, dims: seq<Dims>, config: PdfConfig, i: nat)
    requires |dims| == |images| && ValidConfig(config) && i < |images|
    ensures Pages(images, dims, config)[i] == [PlaceImage(images[i], dims[i], config)]
  {
    var n := |images| - 1;
    if i < n {
      PagesAt(images[..n], dims[..n], config, i);
      assert images[..n][i] == images[i] && dims[..n][i] == dims[i];
    }
  }

  /** The jsPDF document: its page size and, per page, the images added to it. */
  class PdfDoc {
    const width: real
    const height: real
    var pages: seq<seq<Placement>>

    /** `new jsPDF(...)`: a document with one blank page. */
    constructor (width: real, height: real)
      ensures this.width == width && this.height == height && pages == [[]]
    {
      this.width := width;
      this.height := height;
      pages := [[]];
    }

    /** `doc.addPage()`: a new blank page after the others. */
    method AddPage()
      modifies this
      ensures pages == old(pages) + [[]]
    {
      pages := pages + [[]];
    }

    /** `doc.addImage(...)`: the image goes on the current (last) page. */
    method AddImage(p: Placement)
      requires pages != []
      modifies this
      ensures pages == old(pages)[..|old(pages)| - 1] + [old(pages)[|old(pages)| - 1] + [p]]
    {
      pages := pages[..|pages| - 1] + [pages[|pages| - 1] + [p]];
    }
  }

  /**
   * `generatePdf`: a page per image, each image placed by PlaceImage, progress reported
   * after each.  `dims[i]` is the size `getImageProperties` reports for image i.
   */
  method GeneratePdf(images: seq<PdfImage>, dims: seq<Dims>, config: PdfConfig)
    returns (doc: PdfDoc, progress: seq<int>)
    requires |dims| == |images| && ValidConfig(config)
    ensures fresh(doc)
    ensures doc.width == PageDims(config).w && doc.height == PageDims(config).h
    ensures doc.pages == Layout(images, dims, config)
    ensures progress == ProgressTrace(|images|)
  {
    var page := PageDims(config);
    doc := new PdfDoc(page.w, page.h);
    progress := [];
    var i := 0;
    while i < |images|
      invariant 0 <= i <= |images|
      invariant doc.width == page.w && doc.height == page.h
      invariant doc.pages == Layout(images[..i], dims[..i], config)
      invariant |progress| == i && forall k :: 0 <= k < i ==> progress[k] == Percent(k + 1, |images|)
    {
      ghost var before := doc.pages;
      var p := PlaceImage(images[i], dims[i], config);
      if i > 0 {
        doc.AddPage();
        assert doc.pages[..|doc.pages| - 1] == before;
      }
      doc.AddImage(p);
      assert [] + [p] == [p];
      assert doc.pages == if i == 0 then [[p]] else before + [[p]];
      LayoutSnoc(images, dims, config, i);
      progress := progress + [Percent(i + 1, |images|)];
      i := i + 1;
    }
    assert images[..i] == images && dims[..i] == dims;
  }

  /** Adding image i to the layout of the first i images: a new page unless i is 0. */
  lemma {:induction false} LayoutSnoc(images: seq<PdfImage>, dims: seq<Dims>, config: PdfConfig, i: nat)
    requires |dims| == |images| && ValidConfig(config) && i < |images|
    ensures var before := Layout(images[..i], dims[..i], config);
            var p := PlaceImage(images[i], dims[i], config);
            Layout(images[..i + 1], dims[..i + 1], config)
              == if i == 0 then [[p]] else before + [[p]]
  {
    assert images[..i + 1][..i] == images[..i] && dims[..i + 1][..i] == dims[..i];
  }
}
