/**
 * The Bulk Photo Resizer page (src/pages/BulkPhotoResizer.jsx).  The workspace holds up
 * to 6 photos (10 once unlocked), each with its own rotation and flips, and 1 to 4
 * target sizes.  A photo is exported alone at the first size, or all photos are drawn
 * at every size into one ZIP archive.  Every drawing is "cover" geometry on a white
 * canvas, turned and flipped about the canvas centre.
 *
 * Decoding and encoding are opaque.  A selected file carries the size of the picture in
 * it, and whether `processSingleImage` resolves for a photo and a canvas size (the image
 * decodes and `toBlob` yields a blob) is the oracle `resolves`.  An encoded canvas is
 * described by what was drawn on it and the encoder settings.
 */
module BulkPhotoResizer {
  import opened Wrappers
  import opened Geometry
  import opened Text
  import opened Rounding
  import opened Archive
  import opened Grid
  import opened Lists
  import opened Turns

  const MaxFreeFiles: nat := 6
  const MaxProFiles: nat := 10
  const MaxFileSizeMb: nat := 25
  const MaxFileBytes: nat := MaxFileSizeMb * 1024 * 1024
  const QualityDefault: real := 0.8
  const MaxTargetSizes: nat := 4
  const BatchZipName: string := "resized_photos_batch.zip"

  /** A selected file: its name, its size in bytes and the size of the picture it holds. */
  datatype Upload = Upload(name: string, bytes: nat, dims: Dims)

  /** An entry of `images`: the file and its transformation state. */
  datatype Photo = Photo(id: string, name: string, file: Upload, rotation: int, flipH: bool, flipV: bool)

  /** An entry of `targetSizes`. */
  datatype TargetSize = TargetSize(w: int, h: int, caption: string)

  const DefaultSizes: seq<TargetSize> := [TargetSize(1080, 1080, "IG Square"), TargetSize(1920, 1080, "Full HD")]

  /** The two choices of the format select. */
  datatype ExportFormat = Jpeg | Png

  function Mime(f: ExportFormat): string
  {
    if f == Jpeg then "image/jpeg" else "image/png"
  }

  /** `exportFormat.split("/")[1]`: the subtype of the MIME type. */
  function Ext(f: ExportFormat): (e: string)
    ensures Mime(f) == "image/" + e && e != [] && '/' !in e && '.' !in e && '_' !in e
  {
    if f == Jpeg then "jpeg" else "png"
  }

  // ---------------------------------------------------------------------------
  // Upload admission

  /** `isUnlocked ? MAX_PRO_FILES : MAX_FREE_FILES`. */
  function Limit(isUnlocked: bool): nat
  {
    if isUnlocked then MaxProFiles else MaxFreeFiles
  }

  /** The size filter: a file over 25 MiB is skipped. */
  predicate FitsSizeLimit(f: Upload)
  {
    f.bytes <= MaxFileBytes
  }

  /** A photo as it enters the workspace: not turned, not flipped. */
  function NewPhoto(f: Upload, id: string): Photo
  {
    Photo(id, f.name, f, 0, false, false)
  }

  /**
   * The images after `handleFileUpload`.  Nothing is added when no slot is left;
   * otherwise the files that pass the size filter are taken in selection order, as
   * many as there are slots.  `ids[k]` is the id `crypto.randomUUID` gives the k-th
   * new photo.
   */
  function Admitted(images: seq<Photo>, files: seq<Upload>, limit: nat, ids: seq<string>): (r: seq<Photo>)
    requires |ids| >= |files|
    ensures |images| >= limit ==> r == images
    ensures |images| <= |r| <= |images| + |files| && r[..|images|] == images
    ensures |images| <= limit ==> |r| <= limit
    ensures forall k :: |images| <= k < |r| ==>
              r[k].rotation == 0 && !r[k].flipH && !r[k].flipV && r[k].id == ids[k - |images|]
              && FitsSizeLimit(r[k].file) && r[k].file in files && r[k].name == r[k].file.name
  {
    var remaining := limit - |images|;
    if remaining <= 0 then images
    else
      var valid := Filter(files, FitsSizeLimit);
      var taken := valid[..if remaining < |valid| then remaining else |valid|];
      images + seq(|taken|, k requires 0 <= k < |taken| => NewPhoto(taken[k], ids[k]))
  }

  /**
   * With a slot left, the new photos are the first files that pass the size filter, in
   * the order they were selected; when every file passes and fits, all are added.
   */
  lemma {:induction false} AdmittedInOrder(images: seq<Photo>, files: seq<Upload>, limit: nat, ids: seq<string>)
    requires |ids| >= |files| && |images| < limit
    ensures var valid := Filter(files, FitsSizeLimit);
            var r := Admitted(images, files, limit, ids);
            |r| - |images| == (if limit - |images| < |valid| then limit - |images| else |valid|)
            && forall k :: 0 <= k < |r| - |images| ==> r[|images| + k] == NewPhoto(valid[k], ids[k])
    ensures (forall i :: 0 <= i < |files| ==> FitsSizeLimit(files[i])) && |images| + |files| <= limit ==>
              Admitted(images, files, limit, ids)
                == images + seq(|files|, k requires 0 <= k < |files| => NewPhoto(files[k], ids[k]))
  {
  }

  /** No two photos share an id. */
  predicate UniqueIds(images: seq<Photo>)
  {
    forall a, b :: 0 <= a < b < |images| ==> images[a].id != images[b].id
  }

  /** Every photo is turned by a multiple of a quarter turn. */
  predicate AllQuarter(images: seq<Photo>)
  {
    forall k :: 0 <= k < |images| ==> Quarter(images[k].rotation)
  }

  /** Every photo passed the size filter. */
  predicate AllFit(images: seq<Photo>)
  {
    forall k :: 0 <= k < |images| ==> FitsSizeLimit(images[k].file)
  }

  /** The ids handed out are pairwise different and not in use. */
  predicate FreshIds(images: seq<Photo>, ids: seq<string>)
  {
    (forall a, b :: 0 <= a < b < |ids| ==> ids[a] != ids[b])
    && forall k, q :: 0 <= k < |ids| && 0 <= q < |images| ==> ids[k] != images[q].id
  }

  /** Admission keeps ids unique, rotations quarter turns and every file under the size limit. */
  lemma {:induction false} AdmittedKeepsInvariant(images: seq<Photo>, files: seq<Upload>, limit: nat, ids: seq<string>)
    requires |ids| >= |files| && FreshIds(images, ids)
    requires UniqueIds(images) && AllQuarter(images) && AllFit(images)
    ensures var r := Admitted(images, files, limit, ids);
            UniqueIds(r) && AllQuarter(r) && AllFit(r)
  {
    var r := Admitted(images, files, limit, ids);
    var n := |images|;
    forall a, b | 0 <= a < b < |r| ensures r[a].id != r[b].id {
      if b < n {
        assert r[a] == images[a] && r[b] == images[b];
      } else if a < n {
        assert r[a] == images[a];
      }
    }
    forall k | 0 <= k < |r| ensures Quarter(r[k].rotation) && FitsSizeLimit(r[k].file) {
      if k < n {
        assert r[k] == images[k];
      }
    }
  }

  // ---------------------------------------------------------------------------
  // Removing and transforming photos

  /** The filter test of `removeImage`: keep the photos with another id. */
  function OtherThan(id: string): Photo -> bool
  {
    (p: Photo) => p.id != id
  }

  /** `prev.filter((img) => img.id !== id)`. */
  function Removed(images: seq<Photo>, id: string): seq<Photo>
  {
    Filter(images, OtherThan(id))
  }

  /** Removing a photo deletes exactly that entry and keeps the others in order. */
  lemma {:induction false} RemovedDeletesOne(images: seq<Photo>, id: string, k: nat)
    requires UniqueIds(images) && k < |images| && images[k].id == id
    ensures Removed(images, id) == images[..k] + images[k + 1..]
  {
    FilterRemovesOne(images, OtherThan(id), k);
  }

  /** Removing an id nobody has changes nothing. */
  lemma {:induction false} RemovedUnknown(images: seq<Photo>, id: string)
    requires forall k :: 0 <= k < |images| ==> images[k].id != id
    ensures Removed(images, id) == images
  {
  }

  /** Deleting the entry at k keeps ids unique, rotations quarter turns and files under the size limit. */
  lemma {:induction false} DeletedKeepsInvariant(images: seq<Photo>, k: nat)
    requires k < |images| && UniqueIds(images) && AllQuarter(images) && AllFit(images)
    ensures var r := images[..k] + images[k + 1..];
            UniqueIds(r) && AllQuarter(r) && AllFit(r)
  {
    var r := images[..k] + images[k + 1..];
    forall j | 0 <= j < |r| ensures r[j] == images[if j < k then j else j + 1] {
    }
    forall a, b | 0 <= a < b < |r| ensures r[a].id != r[b].id {
      assert r[a] == images[if a < k then a else a + 1];
      assert r[b] == images[if b < k then b else b + 1];
    }
  }

  /** Removal keeps ids unique, rotations quarter turns and files under the size limit. */
  lemma {:induction false} RemovedKeepsInvariant(images: seq<Photo>, id: string)
    requires UniqueIds(images) && AllQuarter(images) && AllFit(images)
    ensures var r := Removed(images, id);
            UniqueIds(r) && AllQuarter(r) && AllFit(r)
  {
    if k :| 0 <= k < |images| && images[k].id == id {
      RemovedDeletesOne(images, id, k);
      DeletedKeepsInvariant(images, k);
    } else {
      RemovedUnknown(images, id);
    }
  }

  /** The transform types `updateTransform` knows. */
  predicate KnownTransform(kind: string)
  {
    kind == "rot-left" || kind == "rot-right" || kind == "flip-h" || kind == "flip-v"
  }

  /** One photo after a transform of the given type; an unknown type returns it as it is. */
  function Transform(p: Photo, kind: string): Photo
  {
    if kind == "rot-left" then p.(rotation := RotateLeft(p.rotation))
    else if kind == "rot-right" then p.(rotation := RotateRight(p.rotation))
    else if kind == "flip-h" then p.(flipH := !p.flipH)
    else if kind == "flip-v" then p.(flipV := !p.flipV)
    else p
  }

  /** `updateTransform(id, type)`: the photo with that id is transformed, the others are kept. */
  function Transformed(images: seq<Photo>, id: string, kind: string): (r: seq<Photo>)
    ensures |r| == |images|
    ensures forall k :: 0 <= k < |r| ==>
              r[k].id == images[k].id && r[k].name == images[k].name && r[k].file == images[k].file
    ensures forall k :: 0 <= k < |r| && images[k].id != id ==> r[k] == images[k]
  {
    seq(|images|, k requires 0 <= k < |images| => if images[k].id != id then images[k] else Transform(images[k], kind))
  }

  /**
   * What happens to the photo with the id: "rot-right" and "rot-left" turn it a quarter
   * turn right or left, "flip-h" and "flip-v" toggle the matching flag, and every other
   * field, and every other type, leaves it as it was.
   */
  lemma {:induction false} TransformedTarget(images: seq<Photo>, id: string, kind: string)
    ensures var r := Transformed(images, id, kind);
            forall k :: 0 <= k < |images| && images[k].id == id ==>
              r[k].rotation == (if kind == "rot-right" then RotateRight(images[k].rotation)
                                else if kind == "rot-left" then RotateLeft(images[k].rotation)
                                else images[k].rotation)
              && r[k].flipH == (if kind == "flip-h" then !images[k].flipH else images[k].flipH)
              && r[k].flipV == (if kind == "flip-v" then !images[k].flipV else images[k].flipV)
  {
  }

  /** An unknown transform type leaves every photo as it was. */
  lemma {:induction false} UnknownTransformKeeps(images: seq<Photo>, id: string, kind: string)
    requires !KnownTransform(kind)
    ensures Transformed(images, id, kind) == images
  {
  }

  /** Transforms keep every rotation a quarter turn, and ids unique. */
  lemma {:induction false} TransformedKeepsInvariant(images: seq<Photo>, id: string, kind: string)
    requires AllQuarter(images) && UniqueIds(images)
    ensures AllQuarter(Transformed(images, id, kind)) && UniqueIds(Transformed(images, id, kind))
  {
  }

  /** Turning left then right, or flipping twice on the same axis, gives the workspace back as it was. */
  lemma {:induction false} TransformsUndo(images: seq<Photo>, id: string)
    requires AllQuarter(images)
    ensures Transformed(Transformed(images, id, "rot-left"), id, "rot-right") == images
    ensures Transformed(Transformed(images, id, "flip-h"), id, "flip-h") == images
    ensures Transformed(Transformed(images, id, "flip-v"), id, "flip-v") == images
  {
    forall k | 0 <= k < |images|
      ensures Transform(Transform(images[k], "rot-left"), "rot-right") == images[k]
    {
      TurnsUndo(images[k].rotation);
    }
  }

  /** Four right turns give the workspace back as it was. */
  lemma {:induction false} FourRightTurns(images: seq<Photo>, id: string)
    requires AllQuarter(images)
    ensures var r := Transformed(images, id, "rot-right");
            Transformed(Transformed(Transformed(r, id, "rot-right"), id, "rot-right"), id, "rot-right") == images
  {
    forall k | 0 <= k < |images|
      ensures Transform(Transform(Transform(Transform(images[k], "rot-right"), "rot-right"), "rot-right"), "rot-right")
              == images[k]
    {
      FourTurns(images[k].rotation);
    }
  }

  // ---------------------------------------------------------------------------
  // Target sizes

  /** Some entry already has width w and height h. */
  predicate HasSize(sizes: seq<TargetSize>, w: int, h: int)
  {
    exists k :: 0 <= k < |sizes| && sizes[k].w == w && sizes[k].h == h
  }

  /** No two entries have the same width and height. */
  predicate UniqueSizes(sizes: seq<TargetSize>)
  {
    forall a, b :: 0 <= a < b < |sizes| ==> sizes[a].w != sizes[b].w || sizes[a].h != sizes[b].h
  }

  /**
   * `addCustomSize` with the custom size w × h: appended as "Custom" when no entry has
   * these dimensions and fewer than four exist; otherwise nothing changes.
   */
  function WithCustomSize(sizes: seq<TargetSize>, w: int, h: int): (r: seq<TargetSize>)
    ensures r == sizes || r == sizes + [TargetSize(w, h, "Custom")]
    ensures r != sizes <==> !HasSize(sizes, w, h) && |sizes| < MaxTargetSizes
    ensures UniqueSizes(sizes) ==> UniqueSizes(r)
    ensures |sizes| <= MaxTargetSizes ==> |r| <= MaxTargetSizes
  {
    if !HasSize(sizes, w, h) && |sizes| < MaxTargetSizes then sizes + [TargetSize(w, h, "Custom")] else sizes
  }

  /**
   * `removeSize(index)`: when more than one size is left, the entry at index is
   * filtered out; with one size left nothing changes.
   */
  function WithoutSize(sizes: seq<TargetSize>, index: int): (r: seq<TargetSize>)
    ensures |sizes| <= 1 ==> r == sizes
    ensures |sizes| >= 1 ==> |r| >= 1
    ensures |r| == (if |sizes| > 1 && 0 <= index < |sizes| then |sizes| - 1 else |sizes|)
    ensures forall k :: 0 <= k < |r| ==> r[k] in sizes
    ensures |sizes| > 1 && 0 <= index < |sizes| ==>
              forall k :: 0 <= k < |r| ==> r[k] == sizes[if k < index then k else k + 1]
    ensures !(0 <= index < |sizes|) ==> r == sizes
    ensures UniqueSizes(sizes) ==> UniqueSizes(r)
  {
    if |sizes| > 1 && 0 <= index < |sizes| then sizes[..index] + sizes[index + 1..] else sizes
  }

  // ---------------------------------------------------------------------------
  // Drawing one photo

  /** The picture as it stands after the turn: sides exchanged for a quarter or three-quarter turn. */
  function Upright(d: Dims, rotation: int): Dims
  {
    if TurnsSides(rotation) then Dims(d.h, d.w) else d
  }

  /**
   * The rectangle `processSingleImage` passes to `drawImage`, in the turned and flipped
   * frame whose origin is the canvas centre: the photo at `scale = max(tW / srcW, tH / srcH)`,
   * where srcW × srcH is the turned picture, centred on the origin.
   */
  function DrawRect(d: Dims, rotation: int, tw: int, th: int): Rect
  {
    var src := Upright(d, rotation);
    var scale := Max(tw as real / src.w as real, th as real / src.h as real);
    var drawW := d.w as real * scale;
    var drawH := d.h as real * scale;
    Rect(-drawW / 2.0, -drawH / 2.0, drawW, drawH)
  }

  /**
   * Where a rectangle centred on the frame's origin lands on the canvas.  A turn by a
   * multiple of 90 degrees maps such a rectangle onto itself, or onto the rectangle with
   * its sides exchanged; flips map it onto itself.  The origin is at the canvas centre.
   */
  function Footprint(r: Rect, rotation: int, tw: int, th: int): Rect
  {
    var cx, cy := tw as real / 2.0, th as real / 2.0;
    if TurnsSides(rotation) then Rect(cx + r.y, cy + r.x, r.h, r.w) else Rect(cx + r.x, cy + r.y, r.w, r.h)
  }

  /** On the canvas, the turned photo is exactly the cover rectangle of the turned picture. */
  lemma {:induction false} DrawIsCover(d: Dims, rotation: int, tw: int, th: int)
    ensures var src := Upright(d, rotation);
            Footprint(DrawRect(d, rotation, tw, th), rotation, tw, th) == CoverRect(src.w as real, src.h as real, tw as real, th as real)
  {
    var src := Upright(d, rotation);
    var s := CoverScale(src.w as real, src.h as real, tw as real, th as real);
    DrawRectScaled(d, rotation, tw, th, s);
    CoverRectCentered(src.w as real, src.h as real, tw as real, th as real, s);
    FootprintOfCentred(d, s, rotation, tw, th);
  }

  /** DrawRect draws the photo at the cover scale of the turned picture, centred on the origin. */
  lemma {:induction false} DrawRectScaled(d: Dims, rotation: int, tw: int, th: int, s: real)
    requires s == CoverScale(Upright(d, rotation).w as real, Upright(d, rotation).h as real, tw as real, th as real)
    ensures DrawRect(d, rotation, tw, th) == Rect(-(d.w as real * s) / 2.0, -(d.h as real * s) / 2.0, d.w as real * s, d.h as real * s)
  {
  }

  /** CoverRect is Centered at the cover scale. */
  lemma {:induction false} CoverRectCentered(iw: real, ih: real, tw: real, th: real, s: real)
    requires iw > 0.0 && ih > 0.0 && s == CoverScale(iw, ih, tw, th)
    ensures CoverRect(iw, ih, tw, th) == Rect((tw - iw * s) / 2.0, (th - ih * s) / 2.0, iw * s, ih * s)
  {
  }

  /** The footprint of the photo scaled by s and centred on the origin is the turned picture scaled by s, centred. */
  lemma {:induction false} FootprintOfCentred(d: Dims, s: real, rotation: int, tw: int, th: int)
    ensures var w, h := d.w as real, d.h as real;
            var src := Upright(d, rotation);
            Footprint(Rect(-(w * s) / 2.0, -(h * s) / 2.0, w * s, h * s), rotation, tw, th)
              == Rect((tw as real - src.w as real * s) / 2.0, (th as real - src.h as real * s) / 2.0,
                      src.w as real * s, src.h as real * s)
  {
  }

  /**
   * So the turned photo covers the canvas, is flush with it on one axis and is centred
   * on it, and the drawing keeps the photo's proportions.
   */
  lemma {:induction false} DrawCoversCanvas(d: Dims, rotation: int, tw: int, th: int)
    ensures var f := Footprint(DrawRect(d, rotation, tw, th), rotation, tw, th);
            Covers(f, tw as real, th as real) && TightOnOneAxis(f, tw as real, th as real)
            && CentredOn(f, tw as real, th as real)
    ensures KeepsAspect(DrawRect(d, rotation, tw, th), d.w as real, d.h as real)
  {
    DrawIsCover(d, rotation, tw, th);
    var src := Upright(d, rotation);
    var s := CoverScale(src.w as real, src.h as real, tw as real, th as real);
    DrawRectScaled(d, rotation, tw, th, s);
    assert (d.w as real * s) * d.h as real == (d.h as real * s) * d.w as real;
  }

  /** One encoded canvas: its size, the white background, the transform, the drawing and the encoder settings. */
  datatype Drawn = Drawn(width: int, height: int, background: string, rotation: int, flipH: bool, flipV: bool,
                         draw: Rect, mime: string, quality: real)

  /** What `processSingleImage(p, w, h)` resolves with. */
  function Render(p: Photo, w: int, h: int, format: ExportFormat, quality: real): Drawn
  {
    Drawn(w, h, "#FFFFFF", p.rotation, p.flipH, p.flipV, DrawRect(p.file.dims, p.rotation, w, h), Mime(format), quality)
  }

  /**
   * `processSingleImage`: a w × h canvas filled white, the origin moved to its centre,
   * turned and flipped, the photo drawn centred at the cover scale, then encoded.
   */
  method ProcessSingleImage(p: Photo, w: int, h: int, format: ExportFormat, quality: real,
                            resolves: (Photo, int, int) -> bool)
    returns (r: Option<Drawn>)
    ensures r == if resolves(p, w, h) then Some(Render(p, w, h, format, quality)) else None
  {
    if !resolves(p, w, h) {
      return None;
    }
    var img := p.file.dims;
    var isRotatedSides := p.rotation % 180 != 0;
    var srcW := if isRotatedSides then img.h else img.w;
    var srcH := if isRotatedSides then img.w else img.h;
    assert Upright(img, p.rotation) == Dims(srcW, srcH);
    var scale := Max(w as real / srcW as real, h as real / srcH as real);
    var drawW := img.w as real * scale;
    var drawH := img.h as real * scale;
    r := Some(Drawn(w, h, "#FFFFFF", p.rotation, p.flipH, p.flipV, Rect(-drawW / 2.0, -drawH / 2.0, drawW, drawH),
                    Mime(format), quality));
    assert Rect(-drawW / 2.0, -drawH / 2.0, drawW, drawH) == DrawRect(img, p.rotation, w, h);
  }

  // ---------------------------------------------------------------------------
  // File names

  /** `name.substring(0, name.lastIndexOf(".")) || name`: the text before the last '.', or the whole name when that is empty. */
  function BatchBase(name: string): (b: string)
    ensures StartsWith(name, b)
    ensures b != name ==> b != [] && name[|b|] == '.' && forall j :: |b| < j < |name| ==> name[j] != '.'
  {
    var i := LastIndexOf(name, '.');
    if i > 0 then name[..i] else name
  }

  /** The whole name is kept exactly when it has no '.' after its first character. */
  lemma BatchBaseKeepsWhole(name: string)
    ensures BatchBase(name) == name <==> forall j :: 0 < j < |name| ==> name[j] != '.'
  {
  }

  /** `${nameClean}_${size.w}x${size.h}.${ext}`, the entry name of the batch. */
  function BatchName(p: Photo, w: int, h: int, format: ExportFormat): string
  {
    BatchBase(p.name) + "_" + DimsTag(w, h) + "." + Ext(format)
  }

  /** `${imgData.name.split(".")[0]}_${size.w}x${size.h}.${ext}`, the single download's name. */
  function SingleName(p: Photo, w: int, h: int, format: ExportFormat): string
  {
    BeforeFirst(p.name, '.') + "_" + DimsTag(w, h) + "." + Ext(format)
  }

  /** A batch entry name determines the photo's base name and the size. */
  lemma {:induction false} BatchNameInjective(p: Photo, w: int, h: int, q: Photo, w': int, h': int, format: ExportFormat)
    requires BatchName(p, w, h, format) == BatchName(q, w', h', format)
    ensures BatchBase(p.name) == BatchBase(q.name) && w == w' && h == h'
  {
    DimsTagSeparators(w, h);
    DimsTagSeparators(w', h');
    SplitTaggedName(BatchBase(p.name), DimsTag(w, h), BatchBase(q.name), DimsTag(w', h'), Ext(format));
    DimsTagInjective(w, h, w', h');
  }

  /** For a name with one '.', not in front, the single download and the batch name agree. */
  lemma {:induction false} SingleMatchesBatch(p: Photo, w: int, h: int, format: ExportFormat, i: nat)
    requires 0 < i < |p.name| && p.name[i] == '.'
    requires forall j :: 0 <= j < |p.name| && j != i ==> p.name[j] != '.'
    ensures SingleName(p, w, h, format) == BatchName(p, w, h, format)
  {
    var name := p.name;
    BeforeFirstAt(name, '.', i);
    var tail := name[i + 1..];
    forall j | 0 <= j < |tail| ensures tail[j] != '.' {
      assert tail[j] == name[i + 1 + j];
    }
    assert name == name[..i] + "." + tail;
    LastIndexOfJoin(name[..i], '.', tail);
  }

  /**
   * They differ otherwise: "holiday.v2.jpg" is saved alone as "holiday_…" but enters the
   * batch as "holiday.v2_…", and ".env" keeps its whole name in the batch.
   */
  lemma {:induction false} BaseNameExamples()
    ensures BeforeFirst("holiday.v2.jpg", '.') == "holiday"
  {
    BeforeFirstAt("holiday.v2.jpg", '.', 7);
    assert "holiday.v2.jpg"[..7] == "holiday";
  }

  /** The batch keeps everything before the last '.'. */
  lemma {:induction false} BatchBaseExample()
    ensures BatchBase("holiday.v2.jpg") == "holiday.v2"
  {
    LastIndexOfAt("holiday.v2.jpg", '.', 10);
    assert "holiday.v2.jpg"[..10] == "holiday.v2";
  }

  /** A name whose only '.' is its first character. */
  lemma {:induction false} BaseNameDotFile()
    ensures BeforeFirst(".env", '.') == "" && BatchBase(".env") == ".env"
  {
    LastIndexOfAt(".env", '.', 0);
  }

  // ---------------------------------------------------------------------------
  // The batch

  /** The width and height of each target size, the part the batch loop uses. */
  function Dimensions(sizes: seq<TargetSize>): (ds: seq<(int, int)>)
    ensures |ds| == |sizes|
    ensures forall k :: 0 <= k < |sizes| ==> ds[k] == (sizes[k].w, sizes[k].h)
  {
    seq(|sizes|, k requires 0 <= k < |sizes| => (sizes[k].w, sizes[k].h))
  }

  /** The entry written for one photo at one size. */
  function BatchWrite(p: Photo, d: (int, int), format: ExportFormat, quality: real): Write<Drawn>
  {
    Write(BatchName(p, d.0, d.1, format), Render(p, d.0, d.1, format, quality))
  }

  /** BatchWrite for fixed encoder settings, as the body of the nested loops. */
  function BatchFn(format: ExportFormat, quality: real): (Photo, (int, int)) -> Write<Drawn>
  {
    (p, d) => BatchWrite(p, d, format, quality)
  }

  /** Every photo at every size, photo-major: the archive's writes when nothing fails. */
  function BatchPlan(images: seq<Photo>, sizes: seq<TargetSize>, format: ExportFormat, quality: real): seq<Write<Drawn>>
  {
    Product(images, Dimensions(sizes), BatchFn(format, quality))
  }

  /** Photos whose batch base names agree write to the same entries. */
  function PhotoBase(p: Photo): string
  {
    BatchBase(p.name)
  }

  /** The batch plan has N·M entries; entry p is photo i at size j with p = i·M + j, so photo-major. */
  lemma {:induction false} BatchPlanOrder(images: seq<Photo>, sizes: seq<TargetSize>, format: ExportFormat, quality: real,
                                          p: nat)
    returns (i: nat, j: nat)
    requires p < |images| * |sizes|
    ensures |BatchPlan(images, sizes, format, quality)| == |images| * |sizes|
    ensures i < |images| && j < |sizes| && p == i * |sizes| + j
    ensures BatchPlan(images, sizes, format, quality)[p]
            == Write(BatchName(images[i], sizes[j].w, sizes[j].h, format),
                     Render(images[i], sizes[j].w, sizes[j].h, format, quality))
  {
    var ds := Dimensions(sizes);
    ProductLength(images, ds, BatchFn(format, quality));
    i, j := Locate(images, ds, BatchFn(format, quality), p);
    assert ds[j] == (sizes[j].w, sizes[j].h);
    BatchFnApply(format, quality, images[i], sizes[j]);
  }

  /** The path of a batch entry names its photo's base name and its size, and nothing else. */
  lemma {:induction false} BatchPathsIdentify(format: ExportFormat, quality: real)
    ensures PathsIdentify(BatchFn(format, quality), PhotoBase)
  {
    forall p: Photo, d: (int, int), p': Photo, d': (int, int)
      ensures BatchFn(format, quality)(p, d).path == BatchFn(format, quality)(p', d').path
              <==> PhotoBase(p) == PhotoBase(p') && d == d'
    {
      if BatchFn(format, quality)(p, d).path == BatchFn(format, quality)(p', d').path {
        BatchNameInjective(p, d.0, d.1, p', d'.0, d'.1, format);
      }
    }
  }

  lemma {:induction false} UniqueSizesDistinct(sizes: seq<TargetSize>)
    ensures UniqueSizes(sizes) <==> Distinct(Dimensions(sizes))
  {
    var ds := Dimensions(sizes);
    if UniqueSizes(sizes) {
      forall a, b | 0 <= a < |ds| && 0 <= b < |ds| && a != b ensures ds[a] != ds[b] {
        if a > b {
          assert sizes[b].w != sizes[a].w || sizes[b].h != sizes[a].h;
        }
      }
    }
    if Distinct(ds) {
      forall a, b | 0 <= a < b < |sizes| ensures sizes[a].w != sizes[b].w || sizes[a].h != sizes[b].h {
        assert ds[a] != ds[b];
      }
    }
  }

  /**
   * Since the sizes are unique, a batch of photos with pairwise different base names
   * fills the archive with one entry per (photo, size) pair.
   */
  lemma {:induction false} BatchArchiveComplete(images: seq<Photo>, sizes: seq<TargetSize>, format: ExportFormat, quality: real)
    requires DistinctOn(images, PhotoBase) && UniqueSizes(sizes)
    ensures |Contents(BatchPlan(images, sizes, format, quality))| == |images| * |sizes|
  {
    BatchPathsIdentify(format, quality);
    UniqueSizesDistinct(sizes);
    ProductEntries(images, Dimensions(sizes), BatchFn(format, quality), PhotoBase);
  }

  /**
   * Two photos with the same base name ("a.jpg" and "a.png") produce the same entry
   * names, and the later drawings replace the earlier ones in the archive.
   */
  lemma {:induction false} BatchSameBaseCollides(images: seq<Photo>, sizes: seq<TargetSize>, format: ExportFormat,
                                                 quality: real, a: nat, b: nat)
    requires a < b < |images| && PhotoBase(images[a]) == PhotoBase(images[b]) && sizes != []
    ensures |Contents(BatchPlan(images, sizes, format, quality))| < |images| * |sizes|
  {
    BatchPathsIdentify(format, quality);
    ProductCollision(images, Dimensions(sizes), BatchFn(format, quality), PhotoBase, a, b);
  }

  /** The loop body's write, spelled out. */
  lemma {:induction false} BatchFnApply(format: ExportFormat, quality: real, p: Photo, s: TargetSize)
    ensures BatchFn(format, quality)(p, (s.w, s.h))
            == Write(BatchName(p, s.w, s.h, format), Render(p, s.w, s.h, format, quality))
  {
  }

  /** Photo p resolves at each of the first n sizes. */
  predicate RowResolves(p: Photo, sizes: seq<TargetSize>, resolves: (Photo, int, int) -> bool, n: nat)
  {
    n <= |sizes| && forall j :: 0 <= j < n ==> resolves(p, sizes[j].w, sizes[j].h)
  }

  /** Each of the first n photos resolves at every size. */
  predicate RowsResolve(images: seq<Photo>, sizes: seq<TargetSize>, resolves: (Photo, int, int) -> bool, n: nat)
  {
    n <= |images| && forall i :: 0 <= i < n ==> RowResolves(images[i], sizes, resolves, |sizes|)
  }

  /** Every photo resolves at every size. */
  predicate AllResolve(images: seq<Photo>, sizes: seq<TargetSize>, resolves: (Photo, int, int) -> bool)
  {
    RowsResolve(images, sizes, resolves, |images|)
  }

  /** Photo i at size j fails, and every pair before it, photo-major, resolved. */
  predicate FirstFailure(images: seq<Photo>, sizes: seq<TargetSize>, resolves: (Photo, int, int) -> bool, i: nat, j: nat)
  {
    i < |images| && j < |sizes| && !resolves(images[i], sizes[j].w, sizes[j].h)
    && RowsResolve(images, sizes, resolves, i) && RowResolves(images[i], sizes, resolves, j)
  }

  /** One more size resolved. */
  lemma RowResolvesSnoc(p: Photo, sizes: seq<TargetSize>, resolves: (Photo, int, int) -> bool, n: nat)
    requires RowResolves(p, sizes, resolves, n) && n < |sizes| && resolves(p, sizes[n].w, sizes[n].h)
    ensures RowResolves(p, sizes, resolves, n + 1)
  {
  }

  /** One more photo resolved at every size. */
  lemma RowsResolveSnoc(images: seq<Photo>, sizes: seq<TargetSize>, resolves: (Photo, int, int) -> bool, n: nat)
    requires RowsResolve(images, sizes, resolves, n) && n < |images| && RowResolves(images[n], sizes, resolves, |sizes|)
    ensures RowsResolve(images, sizes, resolves, n + 1)
  {
  }

  /** A failing pair means not every pair resolves. */
  lemma FailureBlocksAll(images: seq<Photo>, sizes: seq<TargetSize>, resolves: (Photo, int, int) -> bool, i: nat, j: nat)
    requires FirstFailure(images, sizes, resolves, i, j)
    ensures !AllResolve(images, sizes, resolves)
  {
    assert !RowResolves(images[i], sizes, resolves, |sizes|);
  }

  /** How the batch ends: no size selected, the archive saved, or the pair (image, size) failed. */
  datatype BatchOutcome =
    | NoSizes
    | Zipped(zipName: string, writes: seq<Write<Drawn>>)
    | Failed(image: nat, size: nat)

  /** The pairs completed before the batch ended: all n·m, or those before the failing one. */
  function StepsDone(out: BatchOutcome, n: nat, m: nat): (d: nat)
    requires out.Failed? ==> out.image < n && out.size < m
    ensures d <= n * m
  {
    if out.Failed? then
      IndexBound(out.image, out.size, n, m);
      out.image * m + out.size
    else n * m
  }

  /**
   * The progress values a batch of n photos and m sizes sets, in order: 0 at the start,
   * the percentage after each completed pair, and 0 when processing ends.
   */
  function ShownProgress(out: BatchOutcome, n: nat, m: nat): seq<int>
    requires out.Failed? ==> out.image < n && out.size < m
  {
    var total: nat := n * m;
    [0] + ProgressTrace(total)[..StepsDone(out, n, m)] + [0]
  }

  /** The page's state: the workspace, the settings and the batch's progress. */
  class Resizer {
    var images: seq<Photo>
    var targetSizes: seq<TargetSize>
    var customSize: (int, int)
    var exportFormat: ExportFormat
    var quality: real
    var isUnlocked: bool
    var isProcessing: bool
    var progress: int

    /**
     * What every handler keeps: no more photos than the current limit, unique ids,
     * quarter-turn rotations, files under 25 MiB, and one to four unique target sizes.
     */
    ghost predicate Valid()
      reads this
    {
      |images| <= Limit(isUnlocked) && UniqueIds(images) && AllQuarter(images) && AllFit(images)
      && 1 <= |targetSizes| <= MaxTargetSizes && UniqueSizes(targetSizes)
    }

    /** The initial state of the page. */
    constructor ()
      ensures Valid()
      ensures images == [] && targetSizes == DefaultSizes && customSize == (800, 800)
      ensures exportFormat == Jpeg && quality == QualityDefault
      ensures !isUnlocked && !isProcessing && progress == 0
    {
      images := [];
      targetSizes := DefaultSizes;
      customSize := (800, 800);
      exportFormat := Jpeg;
      quality := QualityDefault;
      isUnlocked := false;
      isProcessing := false;
      progress := 0;
    }

    /** `handleReset`: a non-empty workspace is cleared only once the user confirms. */
    method HandleReset(confirmed: bool)
      requires Valid()
      modifies this`images, this`progress
      ensures Valid()
      ensures if |old(images)| > 0 && !confirmed then images == old(images) && progress == old(progress)
              else images == [] && progress == 0
    {
      if |images| > 0 && !confirmed {
        return;
      }
      images := [];
      progress := 0;
    }

    /** `handleFileUpload` with `files` selected; `ids` are the fresh ids for the new photos. */
    method HandleFileUpload(files: seq<Upload>, ids: seq<string>)
      requires Valid() && |ids| >= |files| && FreshIds(images, ids)
      modifies this`images
      ensures Valid()
      ensures images == Admitted(old(images), files, Limit(isUnlocked), ids)
    {
      AdmittedKeepsInvariant(images, files, Limit(isUnlocked), ids);
      images := Admitted(images, files, Limit(isUnlocked), ids);
    }

    /** `removeImage(id)`. */
    method RemoveImage(id: string)
      requires Valid()
      modifies this`images
      ensures Valid()
      ensures images == Removed(old(images), id)
    {
      RemovedKeepsInvariant(images, id);
      images := Removed(images, id);
    }

    /** `updateTransform(id, type)`. */
    method UpdateTransform(id: string, kind: string)
      requires Valid()
      modifies this`images
      ensures Valid()
      ensures images == Transformed(old(images), id, kind)
    {
      TransformedKeepsInvariant(images, id, kind);
      images := Transformed(images, id, kind);
    }

    /** The custom size inputs: `parseInt(value) || 0`, so unparsable text gives 0. */
    method SetCustomSize(w: int, h: int)
      modifies this`customSize
      ensures customSize == (w, h)
    {
      customSize := (w, h);
    }

    /** `addCustomSize`. */
    method AddCustomSize()
      requires Valid()
      modifies this`targetSizes
      ensures Valid()
      ensures targetSizes == WithCustomSize(old(targetSizes), customSize.0, customSize.1)
    {
      targetSizes := WithCustomSize(targetSizes, customSize.0, customSize.1);
    }

    /** `removeSize(index)`. */
    method RemoveSize(index: int)
      requires Valid()
      modifies this`targetSizes
      ensures Valid()
      ensures targetSizes == WithoutSize(old(targetSizes), index)
    {
      targetSizes := WithoutSize(targetSizes, index);
    }

    /** The unlock button: the limit rises from 6 to 10. */
    method Unlock()
      requires Valid()
      modifies this`isUnlocked
      ensures Valid() && isUnlocked
    {
      isUnlocked := true;
    }

    /**
     * `handleSingleDownload(p)`: the photo at the first target size (1080 × 1080 when
     * there is none), saved under its name before the first '.'; None when
     * processing rejects and the user is alerted instead.
     */
    method HandleSingleDownload(p: Photo, resolves: (Photo, int, int) -> bool)
      returns (saved: Option<(string, Drawn)>)
      ensures var d := if |targetSizes| > 0 then (targetSizes[0].w, targetSizes[0].h) else (1080, 1080);
              saved == if resolves(p, d.0, d.1)
                       then Some((SingleName(p, d.0, d.1, exportFormat), Render(p, d.0, d.1, exportFormat, quality)))
                       else None
    {
      var size := if |targetSizes| > 0 then (targetSizes[0].w, targetSizes[0].h) else (1080, 1080);
      var blob := ProcessSingleImage(p, size.0, size.1, exportFormat, quality, resolves);
      if blob.None? {
        return None;
      }
      var fileName := SingleName(p, size.0, size.1, exportFormat);
      saved := Some((fileName, blob.value));
    }

    /**
     * `handleBatchDownload`.  With no size it only alerts.  Otherwise every photo is
     * processed at every size, photo-major, each result added to the archive and
     * progress set to `round(100 · done / (N·M))`; the archive is saved once all pairs
     * are done, and the first rejection abandons the batch with nothing saved.  Either
     * way processing ends and progress returns to 0.  `shown` lists the progress values
     * set, in order.
     */
    method HandleBatchDownload(resolves: (Photo, int, int) -> bool) returns (out: BatchOutcome, shown: seq<int>)
      modifies this`isProcessing, this`progress
      ensures out.NoSizes? <==> |targetSizes| == 0
      ensures out.NoSizes? ==> shown == [] && isProcessing == old(isProcessing) && progress == old(progress)
      ensures !out.NoSizes? ==> !isProcessing && progress == 0
      ensures out.Zipped? <==> |targetSizes| > 0 && AllResolve(images, targetSizes, resolves)
      ensures out.Zipped? ==> out.zipName == BatchZipName && out.writes == BatchPlan(images, targetSizes, exportFormat, quality)
      ensures out.Failed? ==> FirstFailure(images, targetSizes, resolves, out.image, out.size)
      ensures !out.NoSizes? ==> shown == ShownProgress(out, |images|, |targetSizes|)
    {
      if |targetSizes| == 0 {
        return NoSizes, [];
      }
      isProcessing := true;
      progress := 0;
      var zip := new Zip<Drawn>();
      var failed, steps := RunBatch(this, zip, images, targetSizes, exportFormat, quality, resolves);
      if failed.Some? {
        out := Failed(failed.value.0, failed.value.1);
        FailureBlocksAll(images, targetSizes, resolves, out.image, out.size);
      } else {
        out := Zipped(BatchZipName, zip.writes);
      }
      ProgressPrefix(steps, |images| * |targetSizes|);
      isProcessing := false;
      progress := 0;
      shown := [0] + steps + [0];
    }
  }

  /**
   * The two loops of the batch: photo by photo, each at every size, into the archive,
   * until a pair fails.  `steps` lists the progress values set after each pair.
   */
  method RunBatch(page: Resizer, zip: Zip<Drawn>, imgs: seq<Photo>, sizes: seq<TargetSize>, format: ExportFormat,
                  quality: real, resolves: (Photo, int, int) -> bool)
    returns (failed: Option<(nat, nat)>, steps: seq<int>)
    requires zip.writes == []
    modifies zip, page`progress
    ensures failed.None? <==> AllResolve(imgs, sizes, resolves)
    ensures failed.None? ==> zip.writes == BatchPlan(imgs, sizes, format, quality) && |steps| == |imgs| * |sizes|
    ensures failed.Some? ==> FirstFailure(imgs, sizes, resolves, failed.value.0, failed.value.1)
                             && |steps| == failed.value.0 * |sizes| + failed.value.1
    ensures Reported(steps, 0, |imgs| * |sizes|)
  {
    var m := |sizes|;
    var total: nat := |imgs| * m;
    steps := [];
    ghost var f := BatchFn(format, quality);
    var i := 0;
    while i < |imgs|
      invariant 0 <= i <= |imgs|
      invariant zip.writes == Product(imgs[..i], Dimensions(sizes), f)
      invariant RowsResolve(imgs, sizes, resolves, i)
      invariant |steps| == i * m && Reported(steps, 0, total)
    {
      MulMonotone(i + 1, |imgs|, m);
      assert (i + 1) * m == |steps| + m;
      var failedAt, rowShown := BatchRow(page, zip, imgs[i], sizes, format, quality, resolves, |steps|, total);
      ProgressExtend(steps, rowShown, total);
      steps := steps + rowShown;
      if failedAt.Some? {
        return Some((i, failedAt.value)), steps;
      }
      RowsResolveSnoc(imgs, sizes, resolves, i);
      ProductExtend(imgs, Dimensions(sizes), f, i);
      i := i + 1;
    }
    assert imgs[..i] == imgs;
    failed := None;
  }

  /** The loop body for one pair: process the photo at the size and add the result to the archive. */
  method ExportPair(zip: Zip<Drawn>, p: Photo, size: TargetSize, format: ExportFormat, quality: real,
                    resolves: (Photo, int, int) -> bool)
    returns (ok: bool)
    modifies zip
    ensures ok == resolves(p, size.w, size.h)
    ensures ok ==> zip.writes == old(zip.writes) + [BatchFn(format, quality)(p, (size.w, size.h))]
  {
    var blob := ProcessSingleImage(p, size.w, size.h, format, quality, resolves);
    if blob.None? {
      return false;
    }
    var fileName := BatchName(p, size.w, size.h, format);
    zip.File(fileName, blob.value);
    BatchFnApply(format, quality, p, size);
    ok := true;
  }

  /** `(a + b) + c == a + (b + c)`, the regrouping the archive's record needs after each write. */
  lemma AppendAssoc<T>(a: seq<T>, b: seq<T>, c: seq<T>)
    ensures (a + b) + c == a + (b + c)
  {
  }

  /**
   * The inner loop of the batch for photo p: each size in order is processed, added to
   * the archive, counted, and the progress set; the first rejection stops it.  `done`
   * pairs were completed before, of `total`.
   */
  method BatchRow(page: Resizer, zip: Zip<Drawn>, p: Photo, sizes: seq<TargetSize>, format: ExportFormat,
                  quality: real, resolves: (Photo, int, int) -> bool, done: nat, total: nat)
    returns (failedAt: Option<nat>, shown: seq<int>)
    requires done + |sizes| <= total
    modifies zip, page`progress
    ensures failedAt.None? <==> RowResolves(p, sizes, resolves, |sizes|)
    ensures failedAt.Some? ==> failedAt.value < |sizes| && !resolves(p, sizes[failedAt.value].w, sizes[failedAt.value].h)
                               && RowResolves(p, sizes, resolves, failedAt.value)
    ensures failedAt.None? ==> zip.writes == old(zip.writes) + Row(p, Dimensions(sizes), BatchFn(format, quality))
    ensures |shown| == (if failedAt.None? then |sizes| else failedAt.value) && Reported(shown, done, total)
  {
    var ds := Dimensions(sizes);
    ghost var f := BatchFn(format, quality);
    ghost var start := zip.writes;
    var j := 0;
    shown := [];
    while j < |sizes|
      invariant 0 <= j <= |sizes|
      invariant zip.writes == start + Row(p, ds[..j], f)
      invariant RowResolves(p, sizes, resolves, j)
      invariant |shown| == j && Reported(shown, done, total)
    {
      var ok := ExportPair(zip, p, sizes[j], format, quality, resolves);
      if !ok {
        return Some(j), shown;
      }
      RowResolvesSnoc(p, sizes, resolves, j);
      ReportedSnoc(shown, done, total);
      AppendAssoc(start, Row(p, ds[..j], f), [f(p, ds[j])]);
      RowExtend(p, ds, f, j);
      var percent := Percent(done + |shown| + 1, total);
      page.progress := percent;
      shown := shown + [percent];
      j := j + 1;
    }
    assert ds[..j] == ds;
    failedAt := None;
  }
}
