/**
 * The Image to PDF page (src/pages/ImageToPdfTool.jsx).  The page keeps an ordered list
 * of pictures, each with a quarter-turn rotation.  Pictures can be added, removed,
 * turned and dragged to another place.  The list is converted to one PDF page per
 * picture, in list order, by `generatePdf`.  Every handler replaces the list with a new
 * one computed by `filter`, `map` or `arrayMove`.
 */
module ImageToPdfTool {
  import opened Wrappers
  import opened Geometry
  import opened Text
  import opened Rounding
  import opened Lists
  import opened Turns
  import opened PdfEngine

  /** A selected file: its name and its MIME type (`file.type`). */
  datatype SelectedFile = SelectedFile(name: string, mime: string)

  /** An entry of `images`: its id, the file, its object URL and its rotation in degrees. */
  datatype PdfItem = PdfItem(id: string, file: SelectedFile, url: string, rotation: int)

  /** The settings state; the page offers A4 and Letter, portrait, and margins of 0 to 50 mm. */
  datatype Settings = Settings(pageSize: PageFormat, orientation: Orientation, margin: int, fitMode: string)

  const DefaultSettings: Settings := Settings(A4, Portrait, 10, "fit")
  const MaxMargin: int := 50

  /** The progress shown as soon as an export starts. */
  const ExportStartProgress: int := 10

  // ---------------------------------------------------------------------------
  // Adding pictures

  /** `f.type.startsWith("image/")`. */
  predicate IsImageFile(f: SelectedFile)
  {
    StartsWith(f.mime, "image/")
  }

  /** A picture as it enters the list: not turned. */
  function NewItem(f: SelectedFile, id: string, url: string): PdfItem
  {
    PdfItem(id, f, url, 0)
  }

  /**
   * The list after `handleFiles(files)`: the image files among `files`, in the order they
   * were selected, appended after the pictures already there.  `ids[k]` and `urls[k]` are
   * the random id and the object URL the k-th accepted file receives.
   */
  function WithFiles(images: seq<PdfItem>, files: seq<SelectedFile>, ids: seq<string>, urls: seq<string>)
    : (r: seq<PdfItem>)
    requires |ids| >= |files| && |urls| >= |files|
    ensures |images| <= |r| <= |images| + |files| && r[..|images|] == images
    ensures |r| == |images| + |Filter(files, IsImageFile)|
    ensures forall k :: 0 <= k < |r| - |images| ==> r[|images| + k].file == Filter(files, IsImageFile)[k]
    ensures forall k :: |images| <= k < |r| ==>
              r[k].rotation == 0 && IsImageFile(r[k].file) && r[k].file in files
              && r[k].id == ids[k - |images|] && r[k].url == urls[k - |images|]
  {
    images + NewItems(files, ids, urls)
  }

  /** The pictures `handleFiles` makes: one per image file, in order, with its id and URL. */
  function NewItems(files: seq<SelectedFile>, ids: seq<string>, urls: seq<string>): (added: seq<PdfItem>)
    requires |ids| >= |files| && |urls| >= |files|
    ensures var accepted := Filter(files, IsImageFile);
            |added| == |accepted| <= |files|
            && forall k :: 0 <= k < |added| ==>
                 added[k] == NewItem(accepted[k], ids[k], urls[k]) && IsImageFile(accepted[k]) && accepted[k] in files
  {
    var accepted := Filter(files, IsImageFile);
    seq(|accepted|, k requires 0 <= k < |accepted| => NewItem(accepted[k], ids[k], urls[k]))
  }

  /**
   * The appended pictures are the image files in selection order: the k-th new picture
   * holds the file at position pos[k] of the selection, the positions strictly increase,
   * and every image file's position is among them.
   */
  lemma WithFilesInSelectionOrder(images: seq<PdfItem>, files: seq<SelectedFile>, ids: seq<string>, urls: seq<string>)
    returns (pos: seq<nat>)
    requires |ids| >= |files| && |urls| >= |files|
    ensures var r := WithFiles(images, files, ids, urls);
            |pos| == |r| - |images|
            && (forall k :: 0 <= k < |pos| ==> pos[k] < |files| && r[|images| + k].file == files[pos[k]])
            && (forall k, k' :: 0 <= k < k' < |pos| ==> pos[k] < pos[k'])
            && (forall i :: 0 <= i < |files| && IsImageFile(files[i]) ==> i in pos)
  {
    pos := FilterPositions(files, IsImageFile);
  }

  /**
   * The two extreme selections: when all files are images the list grows by all of
   * them, and when none is it stays as it was.
   */
  lemma {:induction false} WithFilesAllOrNone(images: seq<PdfItem>, files: seq<SelectedFile>, ids: seq<string>,
                                              urls: seq<string>)
    requires |ids| >= |files| && |urls| >= |files|
    ensures (forall i :: 0 <= i < |files| ==> IsImageFile(files[i])) ==>
              WithFiles(images, files, ids, urls)
                == images + seq(|files|, k requires 0 <= k < |files| => NewItem(files[k], ids[k], urls[k]))
    ensures (forall i :: 0 <= i < |files| ==> !IsImageFile(files[i])) ==> WithFiles(images, files, ids, urls) == images
  {
    if forall i :: 0 <= i < |files| ==> !IsImageFile(files[i]) {
      FilterNone(files, IsImageFile);
    }
  }

  /** No two pictures share an id. */
  predicate UniqueIds(images: seq<PdfItem>)
  {
    forall a, b :: 0 <= a < b < |images| ==> images[a].id != images[b].id
  }

  /** Every picture is turned by a multiple of a quarter turn. */
  predicate AllQuarter(images: seq<PdfItem>)
  {
    forall k :: 0 <= k < |images| ==> Quarter(images[k].rotation)
  }

  /** The ids handed out are pairwise different and not in use. */
  predicate FreshIds(images: seq<PdfItem>, ids: seq<string>)
  {
    (forall a, b :: 0 <= a < b < |ids| ==> ids[a] != ids[b])
    && forall k, q :: 0 <= k < |ids| && 0 <= q < |images| ==> ids[k] != images[q].id
  }

  /** Adding files keeps ids unique and rotations quarter turns. */
  lemma {:induction false} WithFilesKeepsInvariant(images: seq<PdfItem>, files: seq<SelectedFile>, ids: seq<string>,
                                                   urls: seq<string>)
    requires |ids| >= |files| && |urls| >= |files| && FreshIds(images, ids)
    requires UniqueIds(images) && AllQuarter(images)
    ensures var r := WithFiles(images, files, ids, urls);
            UniqueIds(r) && AllQuarter(r)
  {
    var r := WithFiles(images, files, ids, urls);
    var n := |images|;
    forall a, b | 0 <= a < b < |r| ensures r[a].id != r[b].id {
      if b < n {
        assert r[a] == images[a] && r[b] == images[b];
      } else if a < n {
        assert r[a] == images[a];
      }
    }
    forall k | 0 <= k < |r| ensures Quarter(r[k].rotation) {
      if k < n {
        assert r[k] == images[k];
      }
    }
  }

  // ---------------------------------------------------------------------------
  // Reordering

  /** The list without its entry at k. */
  function Without<T>(xs: seq<T>, k: nat): seq<T>
    requires k < |xs|
  {
    xs[..k] + xs[k + 1..]
  }

  /**
   * `arrayMove(xs, from, to)` of dnd-kit: the entry at `from` is taken out and put back
   * in so that it ends up at `to`.
   */
  function ArrayMove<T>(xs: seq<T>, from: nat, to: nat): seq<T>
    requires from < |xs| && to < |xs|
  {
    var rest := Without(xs, from);
    rest[..to] + [xs[from]] + rest[to..]
  }

  /**
   * The moved entry lands at `to`, and taking it out again leaves the other entries in
   * their old relative order; so the result is a permutation of the list.
   */
  lemma {:induction false} ArrayMovePlaces<T>(xs: seq<T>, from: nat, to: nat)
    requires from < |xs| && to < |xs|
    ensures var r := ArrayMove(xs, from, to);
            |r| == |xs| && r[to] == xs[from] && Without(r, to) == Without(xs, from)
            && multiset(r) == multiset(xs)
  {
    var rest := Without(xs, from);
    var r := ArrayMove(xs, from, to);
    assert r[..to] == rest[..to];
    assert r[to + 1..] == rest[to..];
    assert rest[..to] + rest[to..] == rest;
    assert xs == xs[..from] + [xs[from]] + xs[from + 1..];
    calc {
      multiset(r);
      multiset(rest[..to]) + multiset{xs[from]} + multiset(rest[to..]);
      multiset(rest) + multiset{xs[from]};
      multiset(xs[..from]) + multiset(xs[from + 1..]) + multiset{xs[from]};
      multiset(xs);
    }
  }

  /** Moving the entry back to where it came from undoes the move. */
  lemma {:induction false} ArrayMoveUndo<T>(xs: seq<T>, from: nat, to: nat)
    requires from < |xs| && to < |xs|
    ensures ArrayMove(ArrayMove(xs, from, to), to, from) == xs
  {
    var r := ArrayMove(xs, from, to);
    ArrayMovePlaces(xs, from, to);
    var rest := Without(xs, from);
    assert ArrayMove(r, to, from) == rest[..from] + [xs[from]] + rest[from..];
    assert rest[..from] == xs[..from];
    assert rest[from..] == xs[from + 1..];
    assert xs[..from] + [xs[from]] + xs[from + 1..] == xs;
  }

  /** `items.findIndex((i) => i.id === id)`: the first index with that id, or -1. */
  function IndexOfId(images: seq<PdfItem>, id: string): (k: int)
    ensures -1 <= k < |images|
    ensures k >= 0 ==> images[k].id == id
    ensures forall j :: 0 <= j < |images| && (k < 0 || j < k) ==> images[j].id != id
  {
    if images == [] then -1
    else if images[0].id == id then 0
    else
      var k := IndexOfId(images[1..], id);
      assert forall j :: 1 <= j < |images| ==> images[j] == images[1..][j - 1];
      if k < 0 then -1 else k + 1
  }

  /** With unique ids, the index of a picture's id is its own index. */
  lemma IndexOfOwnId(images: seq<PdfItem>, k: nat)
    requires UniqueIds(images) && k < |images|
    ensures IndexOfId(images, images[k].id) == k
  {
  }

  /** Some picture has the id. */
  predicate HasId(images: seq<PdfItem>, id: string)
  {
    exists k :: 0 <= k < |images| && images[k].id == id
  }

  /**
   * The list after `handleDragEnd`: the dragged picture `active` is moved to the place of
   * the picture it was dropped on, `over`.  Nothing happens when it was dropped on no
   * picture or on itself.  dnd-kit reports only ids of pictures in the list.
   */
  function DragEnd(images: seq<PdfItem>, active: string, over: Option<string>): seq<PdfItem>
    requires HasId(images, active) && (over.Some? ==> HasId(images, over.value))
  {
    if over.Some? && active != over.value then
      ArrayMove(images, IndexOfId(images, active), IndexOfId(images, over.value))
    else images
  }

  /**
   * Dropping picture a onto picture b puts a where b was, keeps every other picture in
   * its relative order, loses and adds nothing; dropping on nothing or on itself changes
   * nothing.
   */
  lemma {:induction false} DragEndMoves(images: seq<PdfItem>, a: nat, over: Option<string>)
    requires UniqueIds(images) && a < |images| && (over.Some? ==> HasId(images, over.value))
    ensures var r := DragEnd(images, images[a].id, over);
            if over.Some? && over.value != images[a].id then
              var b := IndexOfId(images, over.value);
              0 <= b < |images| && images[b].id == over.value
              && r[b] == images[a] && Without(r, b) == Without(images, a) && multiset(r) == multiset(images)
            else r == images
  {
    IndexOfOwnId(images, a);
    if over.Some? && over.value != images[a].id {
      ArrayMovePlaces(images, a, IndexOfId(images, over.value));
    }
  }

  /** Moving keeps the same pictures, so ids stay unique and rotations quarter turns. */
  lemma {:induction false} DragEndKeepsInvariant(images: seq<PdfItem>, active: string, over: Option<string>)
    requires HasId(images, active) && (over.Some? ==> HasId(images, over.value))
    requires UniqueIds(images) && AllQuarter(images)
    ensures var r := DragEnd(images, active, over);
            UniqueIds(r) && AllQuarter(r)
  {
    if over.Some? && active != over.value {
      var from := IndexOfId(images, active);
      WithoutKeepsInvariant(images, from);
      InsertKeepsInvariant(Without(images, from), IndexOfId(images, over.value), images[from]);
    }
  }

  /** Taking one entry out keeps ids unique and rotations quarter turns, and its id is then unused. */
  lemma {:induction false} WithoutKeepsInvariant(images: seq<PdfItem>, k: nat)
    requires k < |images| && UniqueIds(images) && AllQuarter(images)
    ensures var r := Without(images, k);
            UniqueIds(r) && AllQuarter(r) && !HasId(r, images[k].id)
  {
    var r := Without(images, k);
    forall j | 0 <= j < |r| ensures r[j] == images[if j < k then j else j + 1] {
    }
  }

  /** Putting a picture with an unused id and a quarter-turn rotation back in at `to` keeps both. */
  lemma {:induction false} InsertKeepsInvariant(rest: seq<PdfItem>, to: nat, x: PdfItem)
    requires to <= |rest| && UniqueIds(rest) && AllQuarter(rest) && !HasId(rest, x.id) && Quarter(x.rotation)
    ensures var r := rest[..to] + [x] + rest[to..];
            UniqueIds(r) && AllQuarter(r)
  {
    var r := rest[..to] + [x] + rest[to..];
    forall j | 0 <= j < |r| && j != to ensures r[j] == rest[if j < to then j else j - 1] {
    }
  }

  // ---------------------------------------------------------------------------
  // Removing and turning

  /** The filter test of `removeImage`: keep the pictures with another id. */
  function OtherThan(id: string): PdfItem -> bool
  {
    (p: PdfItem) => p.id != id
  }

  /** `prev.filter((img) => img.id !== id)`. */
  function Removed(images: seq<PdfItem>, id: string): seq<PdfItem>
  {
    Filter(images, OtherThan(id))
  }

  /** Removing a picture deletes exactly that entry and keeps the others in order. */
  lemma {:induction false} RemovedDeletesOne(images: seq<PdfItem>, k: nat)
    requires UniqueIds(images) && k < |images|
    ensures Removed(images, images[k].id) == Without(images, k)
  {
    FilterRemovesOne(images, OtherThan(images[k].id), k);
  }

  /** Removing an id nobody has changes nothing. */
  lemma {:induction false} RemovedUnknown(images: seq<PdfItem>, id: string)
    requires !HasId(images, id)
    ensures Removed(images, id) == images
  {
  }

  /** Removal keeps ids unique and rotations quarter turns. */
  lemma {:induction false} RemovedKeepsInvariant(images: seq<PdfItem>, id: string)
    requires UniqueIds(images) && AllQuarter(images)
    ensures var r := Removed(images, id);
            UniqueIds(r) && AllQuarter(r)
  {
    if k :| 0 <= k < |images| && images[k].id == id {
      RemovedDeletesOne(images, k);
      WithoutKeepsInvariant(images, k);
    } else {
      RemovedUnknown(images, id);
    }
  }

  /** One picture after `rotateImage`, when it is the one with the id. */
  function Turned(p: PdfItem, id: string): PdfItem
  {
    if p.id == id then p.(rotation := RotateRight(p.rotation)) else p
  }

  /** `prev.map((img) => img.id === id ? { ...img, rotation: (img.rotation + 90) % 360 } : img)`. */
  function Rotated(images: seq<PdfItem>, id: string): (r: seq<PdfItem>)
    ensures |r| == |images|
  {
    seq(|images|, k requires 0 <= k < |images| => Turned(images[k], id))
  }

  /**
   * Only the picture with the id changes, and only its rotation, by a quarter turn to
   * the right; every picture keeps its place and its id.
   */
  lemma {:induction false} RotatedTurnsOne(images: seq<PdfItem>, id: string)
    ensures var r := Rotated(images, id);
            forall k :: 0 <= k < |images| ==>
              r[k].id == images[k].id && r[k].file == images[k].file && r[k].url == images[k].url
              && r[k].rotation == (if images[k].id == id then RotateRight(images[k].rotation) else images[k].rotation)
  {
  }

  /** Turning keeps ids unique and rotations quarter turns. */
  lemma {:induction false} RotatedKeepsInvariant(images: seq<PdfItem>, id: string)
    requires UniqueIds(images) && AllQuarter(images)
    ensures var r := Rotated(images, id);
            UniqueIds(r) && AllQuarter(r)
  {
  }

  /** Four turns give the list back as it was. */
  lemma {:induction false} FourRotations(images: seq<PdfItem>, id: string)
    requires AllQuarter(images)
    ensures Rotated(Rotated(Rotated(Rotated(images, id), id), id), id) == images
  {
    forall k | 0 <= k < |images|
      ensures Turned(Turned(Turned(Turned(images[k], id), id), id), id) == images[k]
    {
      FourTurns(images[k].rotation);
    }
  }

  // ---------------------------------------------------------------------------
  // Export

  /** The settings object as `generatePdf` reads it: a margin of 0 counts as missing. */
  function ToConfig(s: Settings): PdfConfig
  {
    PdfConfig(Some(s.pageSize), Some(s.orientation), if s.margin == 0 then None else Some(s.margin as real), s.fitMode)
  }

  /** Any margin the slider allows leaves a printable area on every page format and orientation. */
  lemma SliderMarginValid(s: Settings)
    requires 0 <= s.margin <= MaxMargin
    ensures ValidConfig(ToConfig(s))
    ensures Margin(ToConfig(s)) == s.margin as real
  {
  }

  /** What `generatePdf` reads from each picture: its URL and its rotation. */
  function PdfImages(images: seq<PdfItem>): (r: seq<PdfImage>)
    ensures |r| == |images|
  {
    seq(|images|, k requires 0 <= k < |images| => PdfImage(images[k].url, images[k].rotation))
  }

  /** The exported document has page i for picture i of the list as it stands, and one page per picture. */
  lemma {:induction false} ExportFollowsList(images: seq<PdfItem>, dims: seq<Dims>, s: Settings)
    requires |dims| == |images| && images != [] && 0 <= s.margin <= MaxMargin
    ensures ValidConfig(ToConfig(s))
    ensures var pages := Layout(PdfImages(images), dims, ToConfig(s));
            |pages| == |images|
            && forall i :: 0 <= i < |images| ==>
                 pages[i] == [PlaceImage(PdfImage(images[i].url, images[i].rotation), dims[i], ToConfig(s))]
  {
    SliderMarginValid(s);
    LayoutPages(PdfImages(images), dims, ToConfig(s));
  }

  /** The page state of the Image to PDF tool. */
  class ImageToPdf {
    var images: seq<PdfItem>
    var settings: Settings
    var isGenerating: bool
    var progress: int

    /** Unique ids, quarter-turn rotations and a margin within the slider's range. */
    ghost predicate Valid()
      reads this
    {
      UniqueIds(images) && AllQuarter(images) && 0 <= settings.margin <= MaxMargin
    }

    /** The initial state: no pictures, A4 portrait, 10 mm margins, "fit". */
    constructor ()
      ensures Valid()
      ensures images == [] && settings == DefaultSettings && !isGenerating && progress == 0
    {
      images := [];
      settings := DefaultSettings;
      isGenerating := false;
      progress := 0;
    }

    /** `handleFiles(files)`; `ids` and `urls` are what the accepted files receive. */
    method HandleFiles(files: seq<SelectedFile>, ids: seq<string>, urls: seq<string>)
      requires Valid() && |ids| >= |files| && |urls| >= |files| && FreshIds(images, ids)
      modifies this`images
      ensures Valid()
      ensures images == WithFiles(old(images), files, ids, urls)
    {
      WithFilesKeepsInvariant(images, files, ids, urls);
      images := WithFiles(images, files, ids, urls);
    }

    /** `handleDragEnd` for a drag of `active` dropped onto `over`, if onto anything. */
    method HandleDragEnd(active: string, over: Option<string>)
      requires Valid() && HasId(images, active) && (over.Some? ==> HasId(images, over.value))
      modifies this`images
      ensures Valid()
      ensures images == DragEnd(old(images), active, over)
    {
      DragEndKeepsInvariant(images, active, over);
      images := DragEnd(images, active, over);
    }

    /** `removeImage(id)`. */
    method RemoveImage(id: string)
      requires Valid()
      modifies this`images
      ensures Valid()
      ensures images == Removed(old(images), id)
    {
      RemovedKeepsInvariant(images, id);
      images := Removed(images, id);
    }

    /** `rotateImage(id)`. */
    method RotateImage(id: string)
      requires Valid()
      modifies this`images
      ensures Valid()
      ensures images == Rotated(old(images), id)
    {
      RotatedKeepsInvariant(images, id);
      images := Rotated(images, id);
    }

    /** The Clear button: `setImages([])`. */
    method Clear()
      requires Valid()
      modifies this`images
      ensures Valid() && images == []
    {
      images := [];
    }

    /** The margin slider, whose range is 0 to 50 mm. */
    method SetMargin(m: int)
      requires Valid() && 0 <= m <= MaxMargin
      modifies this`settings
      ensures Valid() && settings == old(settings).(margin := m)
    {
      settings := settings.(margin := m);
    }

    /** The page size select, which offers A4 and Letter. */
    method SetPageSize(f: PageFormat)
      requires Valid() && (f == A4 || f == Letter)
      modifies this`settings
      ensures Valid() && settings == old(settings).(pageSize := f)
    {
      settings := settings.(pageSize := f);
    }

    /**
     * `handleExport`.  With no picture nothing happens.  Otherwise progress shows 10,
     * `generatePdf` lays out the pictures in list order and reports its own progress, and
     * at the end generation stops and progress shows 100.  `dims[i]` is the size jsPDF
     * reads from picture i; `shown` lists the progress values set, in order.
     */
    method HandleExport(dims: seq<Dims>) returns (pages: Option<seq<seq<Placement>>>, shown: seq<int>)
      requires Valid() && |dims| == |images|
      modifies this`isGenerating, this`progress
      ensures images == [] ==> pages == None && shown == [] && isGenerating == old(isGenerating)
                               && progress == old(progress)
      ensures images != [] ==> ValidConfig(ToConfig(settings))
                               && pages == Some(Layout(PdfImages(images), dims, ToConfig(settings)))
                               && shown == [ExportStartProgress] + ProgressTrace(|images|) + [100]
                               && !isGenerating && progress == 100
    {
      if |images| == 0 {
        return None, [];
      }
      isGenerating := true;
      progress := ExportStartProgress;
      SliderMarginValid(settings);
      var doc, trace := GeneratePdf(PdfImages(images), dims, ToConfig(settings));
      if |trace| > 0 {
        progress := trace[|trace| - 1];
      }
      isGenerating := false;
      progress := 100;
      pages := Some(doc.pages);
      shown := [ExportStartProgress] + trace + [100];
    }
  }
}
