/**
 * `bulkExportImages` of src/utils/bulkExport.js: every image is loaded, then drawn at
 * every requested size with "fill" (cover) geometry, encoded, and written into the
 * `snapsizes-export` folder of one ZIP archive, which is then downloaded.  Decoding,
 * drawing and encoding are opaque: a decoded image is its intrinsic size, and an
 * encoded canvas is described by what was drawn on it and the encoder settings.
 */
module BulkExport {
  import opened Wrappers
  import opened Geometry
  import opened Text
  import opened Archive
  import opened Grid

  /** An entry of `images`: the file's name and the URL it is loaded from. */
  datatype ImageItem = ImageItem(name: string, src: string)

  /** An entry of `sizes`: the output canvas in pixels. */
  datatype Size = Size(w: int, h: int)

  /** An image whose load succeeded: the item and its decoded size. */
  datatype Loaded = Loaded(item: ImageItem, dims: Dims)

  /** One encoded canvas: its size, the rectangle the image was drawn into, the encoder settings. */
  datatype Rendered = Rendered(width: int, height: int, draw: Rect, mime: string, quality: real)

  /** How the export ends: the archive is saved, or loading image `image` rejected. */
  datatype Outcome =
    | Saved(zipName: string, writes: seq<Write<Rendered>>)
    | LoadError(image: nat)

  const FolderName: string := "snapsizes-export"
  const ZipName: string := "snapsizes-bulk-export.zip"
  const EncoderQuality: real := 0.92

  /** The MIME type `canvasToBlob` asks for: JPEG for "jpg", PNG for any other format. */
  function MimeType(format: string): string
  {
    if format == "jpg" then "image/jpeg" else "image/png"
  }

  /** A file extension the pattern `/\.[^/.]+$/` accepts after its dot. */
  predicate ValidExt(e: string)
  {
    e != [] && '.' !in e && '/' !in e
  }

  /** The name ends in a dot followed by a valid extension. */
  predicate HasExt(name: string)
  {
    exists k :: 0 <= k < |name| && name[k] == '.' && ValidExt(name[k + 1..])
  }

  /** `name.replace(/\.[^/.]+$/, "")`. */
  function StripExt(name: string): (r: string)
    ensures StartsWith(name, r)
  {
    var i := LastIndexOf(name, '.');
    if i >= 0 && ValidExt(name[i + 1..]) then name[..i] else name
  }

  /**
   * StripExt removes exactly one trailing ".ext" whose ext is non-empty and holds no '.'
   * or '/', and leaves a name without such an ending unchanged.
   */
  lemma {:induction false} StripExtRemovesOneExtension(name: string)
    ensures var r := StripExt(name);
            r != name <==> HasExt(name)
    ensures var r := StripExt(name);
            r != name ==> |r| < |name| && name[|r|] == '.' && ValidExt(name[|r| + 1..])
  {
    var i := LastIndexOf(name, '.');
    if HasExt(name) {
      var k :| 0 <= k < |name| && name[k] == '.' && ValidExt(name[k + 1..]);
      forall j | k < j < |name| ensures name[j] != '.' {
        assert name[j] == name[k + 1..][j - k - 1];
      }
      assert k == i;
    }
  }

  /** Stripping undoes appending one valid extension. */
  lemma {:induction false} StripExtOfJoin(base: string, ext: string)
    requires ValidExt(ext)
    ensures StripExt(base + "." + ext) == base
  {
    LastIndexOfJoin(base, '.', ext);
    var s := base + "." + ext;
    assert s[|base| + 1..] == ext && s[..|base|] == base;
  }

  /** The regular expression on names with an extension: only the last one goes. */
  lemma {:induction false} StripExtExamples()
    ensures StripExt("photo.JPG") == "photo"
    ensures StripExt("a.b.c") == "a.b"
  {
    LastIndexOfAt("photo.JPG", '.', 5);
    assert "photo.JPG"[6..] == "JPG" && "photo.JPG"[..5] == "photo";
    LastIndexOfAt("a.b.c", '.', 3);
    assert "a.b.c"[4..] == "c" && "a.b.c"[..3] == "a.b";
  }

  /** A name that is only a dot and an extension strips to the empty name. */
  lemma {:induction false} StripExtHidden()
    ensures StripExt(".hidden") == ""
  {
    LastIndexOfAt(".hidden", '.', 0);
    assert ".hidden"[1..] == "hidden";
  }

  /** Names without an extension after their last dot are left alone. */
  lemma {:induction false} StripExtKeepsExamples()
    ensures StripExt("noext") == "noext"
    ensures StripExt("a.") == "a."
  {
    assert '.' !in "noext";
    LastIndexOfAt("a.", '.', 1);
  }

  /** `${stripExt(imageObj.name)}_${w}x${h}.${format}`. */
  function EntryName(item: ImageItem, s: Size, format: string): string
  {
    StripExt(item.name) + "_" + DimsTag(s.w, s.h) + "." + format
  }

  /** The archive path of one pair: the entry name inside the export folder. */
  function EntryPath(item: ImageItem, s: Size, format: string): string
  {
    FolderName + "/" + EntryName(item, s, format)
  }

  /** Two pairs get the same entry name only when their base names and sizes agree. */
  lemma {:induction false} EntryNameInjective(a: ImageItem, s: Size, b: ImageItem, t: Size, format: string)
    requires EntryName(a, s, format) == EntryName(b, t, format)
    ensures StripExt(a.name) == StripExt(b.name) && s == t
  {
    DimsTagSeparators(s.w, s.h);
    DimsTagSeparators(t.w, t.h);
    SplitTaggedName(StripExt(a.name), DimsTag(s.w, s.h), StripExt(b.name), DimsTag(t.w, t.h), format);
    DimsTagInjective(s.w, s.h, t.w, t.h);
  }

  /** The same for the archive paths. */
  lemma {:induction false} EntryPathInjective(a: ImageItem, s: Size, b: ImageItem, t: Size, format: string)
    requires EntryPath(a, s, format) == EntryPath(b, t, format)
    ensures StripExt(a.name) == StripExt(b.name) && s == t
  {
    PrefixCancel(FolderName + "/", EntryName(a, s, format), EntryName(b, t, format));
    EntryNameInjective(a, s, b, t, format);
  }

  /** The canvas encoded for one pair: w × h, the image drawn with cover geometry. */
  function RenderPair(d: Dims, s: Size, format: string): Rendered
  {
    Rendered(s.w, s.h, CoverRect(d.w as real, d.h as real, s.w as real, s.h as real),
             MimeType(format), EncoderQuality)
  }

  /** Every encoded canvas is w × h and the image covers it, keeping its proportions, centred. */
  lemma {:induction false} RenderPairCovers(d: Dims, s: Size, format: string)
    ensures var r := RenderPair(d, s, format);
            r.width == s.w && r.height == s.h
            && Covers(r.draw, s.w as real, s.h as real)
            && TightOnOneAxis(r.draw, s.w as real, s.h as real)
            && KeepsAspect(r.draw, d.w as real, d.h as real)
            && CentredOn(r.draw, s.w as real, s.h as real)
            && r.mime == (if format == "jpg" then "image/jpeg" else "image/png")
            && r.quality == 0.92
  {
  }

  /** The write made for one (image, size) pair. */
  function PairWrite(l: Loaded, s: Size, format: string): Write<Rendered>
  {
    Write(EntryPath(l.item, s, format), RenderPair(l.dims, s, format))
  }

  /** PairWrite for a fixed format, as the body of the nested loops. */
  function PairFn(format: string): (Loaded, Size) -> Write<Rendered>
  {
    (l, s) => PairWrite(l, s, format)
  }

  /** The writes for all pairs, image-major: every size of image 0, then of image 1, … */
  function Plan(loaded: seq<Loaded>, sizes: seq<Size>, format: string): seq<Write<Rendered>>
  {
    Product(loaded, sizes, PairFn(format))
  }

  /** Images whose base names agree write to the same paths. */
  function BaseKey(l: Loaded): string
  {
    StripExt(l.item.name)
  }

  /** The path of a write names its image's base name and its size, and nothing else. */
  lemma {:induction false} PairPathsIdentify(format: string)
    ensures PathsIdentify(PairFn(format), BaseKey)
  {
    forall l: Loaded, s: Size, l': Loaded, s': Size
      ensures PairFn(format)(l, s).path == PairFn(format)(l', s').path <==> BaseKey(l) == BaseKey(l') && s == s'
    {
      if PairFn(format)(l, s).path == PairFn(format)(l', s').path {
        EntryPathInjective(l.item, s, l'.item, s', format);
      }
    }
  }

  /**
   * With at least one image and one size, no two writes share a path exactly when no
   * two images share a base name and no two sizes are equal.
   */
  lemma {:induction false} PlanDistinctIff(loaded: seq<Loaded>, sizes: seq<Size>, format: string)
    requires loaded != [] && sizes != []
    ensures DistinctPaths(Plan(loaded, sizes, format)) <==> DistinctOn(loaded, BaseKey) && Distinct(sizes)
  {
    PairPathsIdentify(format);
    ProductDistinctIff(loaded, sizes, PairFn(format), BaseKey);
  }

  /** So, with distinct base names and sizes, the archive holds one file entry per (image, size) pair. */
  lemma {:induction false} ArchiveComplete(loaded: seq<Loaded>, sizes: seq<Size>, format: string)
    requires DistinctOn(loaded, BaseKey) && Distinct(sizes)
    ensures |Contents(Plan(loaded, sizes, format))| == |loaded| * |sizes|
  {
    PairPathsIdentify(format);
    ProductEntries(loaded, sizes, PairFn(format), BaseKey);
  }

  /**
   * Two images with the same base name ("a.png" and "a.jpg") write the same paths: the
   * later one replaces the earlier one's entries and the archive holds fewer than N·M.
   */
  lemma {:induction false} SameBaseCollides(loaded: seq<Loaded>, sizes: seq<Size>, format: string, a: nat, b: nat)
    requires a < b < |loaded| && BaseKey(loaded[a]) == BaseKey(loaded[b]) && sizes != []
    ensures |Contents(Plan(loaded, sizes, format))| < |loaded| * |sizes|
  {
    PairPathsIdentify(format);
    ProductCollision(loaded, sizes, PairFn(format), BaseKey, a, b);
  }

  predicate AllDecoded(decoded: seq<Option<Dims>>)
  {
    forall i :: 0 <= i < |decoded| ==> decoded[i].Some?
  }

  /** The images with their decoded sizes, once every load has succeeded. */
  function Loads(images: seq<ImageItem>, decoded: seq<Option<Dims>>): (loaded: seq<Loaded>)
    requires |decoded| == |images| && AllDecoded(decoded)
    ensures |loaded| == |images|
    ensures forall i :: 0 <= i < |images| ==> loaded[i].item == images[i] && Some(loaded[i].dims) == decoded[i]
  {
    seq(|images|, i requires 0 <= i < |images| => Loaded(images[i], decoded[i].value))
  }

  /** One pass of the inner loop: draw the image on a w × h canvas at the cover scale, centred, and encode it. */
  method DrawCovered(img: Dims, size: Size, format: string) returns (blob: Rendered)
    ensures blob == RenderPair(img, size, format)
  {
    var w, h := size.w, size.h;
    var iw, ih := img.w as real, img.h as real;
    var scale := Max(w as real / iw, h as real / ih);
    var drawWidth, drawHeight := iw * scale, ih * scale;
    var dx, dy := (w as real - drawWidth) / 2.0, (h as real - drawHeight) / 2.0;
    blob := Rendered(w, h, Rect(dx, dy, drawWidth, drawHeight), MimeType(format), EncoderQuality);
    assert scale == CoverScale(iw, ih, w as real, h as real);
    assert Rect(dx, dy, drawWidth, drawHeight) == Centered(iw, ih, w as real, h as real, scale);
  }

  /** The inner loop: every size of one loaded image, in order, added to the folder. */
  method ExportRow(folder: Folder<Rendered>, loaded: Loaded, sizes: seq<Size>, format: string)
    requires folder.prefix == FolderName
    modifies folder
    ensures folder.writes == old(folder.writes) + Row(loaded, sizes, PairFn(format))
  {
    var sizeIndex := 0;
    while sizeIndex < |sizes|
      invariant 0 <= sizeIndex <= |sizes|
      invariant folder.writes == old(folder.writes) + Row(loaded, sizes[..sizeIndex], PairFn(format))
    {
      var blob := DrawCovered(loaded.dims, sizes[sizeIndex], format);
      folder.File(EntryName(loaded.item, sizes[sizeIndex], format), blob);
      PairFnApply(format, loaded, sizes[sizeIndex]);
      RowSnoc(loaded, sizes, sizeIndex, format);
      sizeIndex := sizeIndex + 1;
    }
    assert sizes[..sizeIndex] == sizes;
  }

  /** The loop body's write, spelled out. */
  lemma {:induction false} PairFnApply(format: string, l: Loaded, s: Size)
    ensures PairFn(format)(l, s) == Write(FolderName + "/" + EntryName(l.item, s, format), RenderPair(l.dims, s, format))
  {
  }

  /** A row extended by one more size. */
  lemma {:induction false} RowSnoc(l: Loaded, sizes: seq<Size>, k: nat, format: string)
    requires k < |sizes|
    ensures Row(l, sizes[..k + 1], PairFn(format)) == Row(l, sizes[..k], PairFn(format)) + [PairFn(format)(l, sizes[k])]
  {
    assert sizes[..k + 1][..k] == sizes[..k];
  }

  /** The plan extended by one more loaded image. */
  lemma {:induction false} PlanSnoc(images: seq<ImageItem>, decoded: seq<Option<Dims>>, n: nat, sizes: seq<Size>, format: string)
    requires |decoded| == |images| && n < |images| && AllDecoded(decoded[..n + 1])
    ensures AllDecoded(decoded[..n])
    ensures Plan(Loads(images[..n + 1], decoded[..n + 1]), sizes, format)
            == Plan(Loads(images[..n], decoded[..n]), sizes, format)
               + Row(Loaded(images[n], decoded[n].value), sizes, PairFn(format))
  {
    assert decoded[..n + 1][n] == decoded[n];
    var next := Loads(images[..n + 1], decoded[..n + 1]);
    assert next[..n] == Loads(images[..n], decoded[..n]);
    assert next[n] == Loaded(images[n], decoded[n].value);
  }

  /**
   * `bulkExportImages`: for each image in order, load it (a rejected load ends the
   * export and nothing is downloaded), then for each size in order draw it on a fresh
   * w × h canvas with the cover scale `max(w / iw, h / ih)`, centred, encode it and add
   * it to the folder; finally the archive is saved as snapsizes-bulk-export.zip.
   * `decoded[i]` is what loading image i yields.
   */
  method BulkExportImages(images: seq<ImageItem>, decoded: seq<Option<Dims>>, sizes: seq<Size>, format: string)
    returns (out: Outcome)
    requires |decoded| == |images|
    ensures out.Saved? <==> AllDecoded(decoded)
    ensures out.LoadError? ==> out.image < |images| && decoded[out.image].None?
                               && AllDecoded(decoded[..out.image])
    ensures out.Saved? ==> out.zipName == ZipName && out.writes == Plan(Loads(images, decoded), sizes, format)
  {
    var folder := new Folder<Rendered>(FolderName);
    var imgIndex := 0;
    while imgIndex < |images|
      invariant 0 <= imgIndex <= |images|
      invariant AllDecoded(decoded[..imgIndex])
      invariant folder.prefix == FolderName
      invariant folder.writes == Plan(Loads(images[..imgIndex], decoded[..imgIndex]), sizes, format)
    {
      var imageObj := images[imgIndex];
      if decoded[imgIndex].None? {
        return LoadError(imgIndex);
      }
      ExportRow(folder, Loaded(imageObj, decoded[imgIndex].value), sizes, format);
      assert AllDecoded(decoded[..imgIndex + 1]);
      PlanSnoc(images, decoded, imgIndex, sizes, format);
      imgIndex := imgIndex + 1;
    }
    assert images[..imgIndex] == images && decoded[..imgIndex] == decoded;
    out := Saved(ZipName, folder.writes);
  }
}
