/**
 * The image compressor (src/pages/ImageCompressorTool.jsx).  The page keeps a list of
 * compressed pictures: image files are compressed to JPEG at the slider's quality and
 * appended, entries are removed by id and downloaded as "min-" + the original name.
 * File sizes are shown by `formatSize`, in B, KB, MB or GB with at most two decimals.
 *
 * Compression itself (decoding, the canvas, `toBlob`) is opaque: the page records what
 * it asks for, and whether each compression settles, with the blob's URL, size and id,
 * comes back as a parameter.
 */
module ImageCompressorTool {
  import opened Wrappers
  import opened Text
  import opened Rounding
  import opened Lists

  // ---------------------------------------------------------------------------
  // formatSize

  /** 1024 to the power i. */
  function Pow1024(i: nat): (p: nat)
    ensures p >= 1
  {
    if i == 0 then 1 else 1024 * Pow1024(i - 1)
  }

  /** Powers of 1024 grow with the exponent. */
  lemma {:induction false} Pow1024Grows(i: nat, j: nat)
    requires i < j
    ensures Pow1024(i + 1) <= Pow1024(j)
    decreases j
  {
    if i + 1 < j {
      Pow1024Grows(i, j - 1);
    }
  }

  /** `Math.floor(Math.log(bytes) / Math.log(1024))`, computed on integers. */
  function UnitIndex(bytes: nat): nat
    requires bytes >= 1
  {
    if bytes < 1024 then 0 else 1 + UnitIndex(bytes / 1024)
  }

  /** The unit index i is the one with 1024^i <= bytes < 1024^(i+1). */
  lemma {:induction false} UnitIndexBounds(bytes: nat)
    requires bytes >= 1
    ensures Pow1024(UnitIndex(bytes)) <= bytes < Pow1024(UnitIndex(bytes) + 1)
  {
    if bytes >= 1024 {
      var b := bytes / 1024;
      UnitIndexBounds(b);
      var i := UnitIndex(b);
      assert UnitIndex(bytes) == i + 1;
      assert 1024 * Pow1024(i) <= 1024 * b <= bytes;
      assert b + 1 <= Pow1024(i + 1);
      assert bytes < 1024 * (b + 1) <= 1024 * Pow1024(i + 1);
    }
  }

  /** The unit index is the largest i with 1024^i <= bytes. */
  lemma UnitIndexIsLargest(bytes: nat, j: nat)
    requires bytes >= 1 && Pow1024(j) <= bytes
    ensures j <= UnitIndex(bytes)
  {
    UnitIndexBounds(bytes);
    if j > UnitIndex(bytes) {
      Pow1024Grows(UnitIndex(bytes), j);
    }
  }

  /** `sizes[i]`: past "GB" the array has no entry and the text reads "undefined". */
  function UnitName(i: nat): string
  {
    if i < 4 then ["B", "KB", "MB", "GB"][i] else "undefined"
  }

  /** From 1024^4 bytes on, the unit is missing. */
  lemma UnitUndefinedFromTebibyte(bytes: nat)
    requires bytes >= Pow1024(4)
    ensures UnitName(UnitIndex(bytes)) == "undefined"
  {
    UnitIndexIsLargest(bytes, 4);
  }

  /** `(bytes / 1024 ** i).toFixed(2)` as a count of hundredths, rounded half up. */
  function Hundredths(bytes: nat): int
    requires bytes >= 1
  {
    Round((bytes * 100) as real / Pow1024(UnitIndex(bytes)) as real)
  }

  /**
   * The shown number is bytes / 1024^i to the nearest hundredth; it lies between 1 and
   * 1024, both included, because rounding comes after the unit is chosen.
   */
  lemma HundredthsBounds(bytes: nat)
    requires bytes >= 1
    ensures var h, p := Hundredths(bytes), Pow1024(UnitIndex(bytes)) as real;
            h as real - 0.5 <= (bytes * 100) as real / p < h as real + 0.5
            && 100 <= h <= 102400
  {
    var i := UnitIndex(bytes);
    UnitIndexBounds(bytes);
    assert Pow1024(i + 1) == 1024 * Pow1024(i);
    QuotientBounds(bytes, Pow1024(i));
  }

  /** With p <= b < 1024 · p, the quotient 100 · b / p lies in [100, 102400). */
  lemma QuotientBounds(b: nat, p: nat)
    requires 1 <= p <= b < 1024 * p
    ensures 100.0 <= (b * 100) as real / p as real < 102400.0
  {
    var x := (b * 100) as real / p as real;
    assert x * p as real == (b * 100) as real;
    CancelFactor(p as real, 100.0, x);
    CancelFactorStrict(p as real, x, 102400.0);
  }

  /** A positive factor can be cancelled from both sides of <=. */
  lemma CancelFactor(p: real, a: real, c: real)
    requires p > 0.0 && a * p <= c * p
    ensures a <= c
  {
  }

  /** A positive factor can be cancelled from both sides of <. */
  lemma CancelFactorStrict(p: real, a: real, c: real)
    requires p > 0.0 && a * p < c * p
    ensures a < c
  {
  }

  /** One byte short of a mebibyte is shown as "1024 KB". */
  lemma JustUnderOneMebibyte()
    ensures UnitIndex(1048575) == 1 && Hundredths(1048575) == 102400
  {
    assert UnitIndex(1023) == 0;
    assert Pow1024(1) == 1024;
    assert (1048575 * 100) as real / 1024.0 == 102399.90234375;
  }

  /**
   * `parseFloat(t)` printed back for a number with at most two decimals: the integer
   * part, then the decimals without trailing zeros, and no point when none remain.
   */
  function Decimal(h: nat): string
  {
    var q, f := h / 100, h % 100;
    if f == 0 then NatToString(q)
    else if f % 10 == 0 then NatToString(q) + "." + [DigitChar(f / 10)]
    else NatToString(q) + "." + [DigitChar(f / 10), DigitChar(f % 10)]
  }

  /** Reads "digits" or "digits.d" or "digits.dd" as a count of hundredths. */
  function ParseHundredths(s: string): Option<nat>
  {
    var a := BeforeFirst(s, '.');
    if a == [] || !AllDigits(a) then None
    else if |a| == |s| then Some(DigitsValue(a) * 100)
    else
      var f := s[|a| + 1..];
      if |f| == 1 && IsDigit(f[0]) then Some(DigitsValue(a) * 100 + 10 * (f[0] as int - '0' as int))
      else if |f| == 2 && AllDigits(f) then Some(DigitsValue(a) * 100 + DigitsValue(f))
      else None
  }

  /** The printed number reads back as exactly the rounded value. */
  lemma DecimalRoundTrip(h: nat)
    ensures ParseHundredths(Decimal(h)) == Some(h)
  {
    var q, f := h / 100, h % 100;
    NatToStringRoundTrip(q);
    var n := NatToString(q);
    if f == 0 {
      BeforeFirstWhole(n, '.');
      assert Decimal(h) == n;
    } else if f % 10 == 0 {
      var tail := [DigitChar(f / 10)];
      ReadsWithDecimals(q, tail);
      assert Decimal(h) == n + "." + tail;
      assert q * 100 + 10 * (f / 10) == h;
    } else {
      var tail := [DigitChar(f / 10), DigitChar(f % 10)];
      ReadsWithDecimals(q, tail);
      TwoDigitsValue(DigitChar(f / 10), DigitChar(f % 10));
      assert Decimal(h) == n + "." + tail;
      assert q * 100 + 10 * (f / 10) + f % 10 == h;
    }
  }

  /** "q.tail" splits at its point into the digits of q and the tail. */
  lemma ReadsWithDecimals(q: nat, tail: string)
    ensures var n, s := NatToString(q), NatToString(q) + "." + tail;
            BeforeFirst(s, '.') == n && s[|n| + 1..] == tail
  {
    var n := NatToString(q);
    var s := n + "." + tail;
    BeforeFirstAt(s, '.', |n|);
    assert s[..|n|] == n;
  }

  /** Two digits denote ten times the first plus the second. */
  lemma TwoDigitsValue(a: char, b: char)
    requires IsDigit(a) && IsDigit(b)
    ensures DigitsValue([a, b]) == 10 * (a as int - '0' as int) + (b as int - '0' as int)
  {
    assert [a, b][..1] == [a];
    assert [a][..0] == [];
    assert DigitsValue([a]) == a as int - '0' as int;
    assert DigitsValue([a, b]) == DigitsValue([a]) * 10 + (b as int - '0' as int);
  }

  /** Text without c comes out of `split(c)[0]` whole. */
  lemma {:induction false} BeforeFirstWhole(s: string, c: char)
    requires c !in s
    ensures BeforeFirst(s, c) == s
  {
    if s != [] {
      assert c !in s[1..];
      BeforeFirstWhole(s[1..], c);
    }
  }

  /** A decimal point is shown exactly when the value is not whole, and never a trailing zero. */
  lemma DecimalCanonical(h: nat)
    ensures '.' in Decimal(h) <==> h % 100 != 0
    ensures '.' in Decimal(h) ==> Decimal(h)[|Decimal(h)| - 1] != '0'
  {
    var n := NatToString(h / 100);
    assert !IsDigit('.');
    assert '.' !in n;
  }

  /** `formatSize(bytes)`. */
  function FormatSize(bytes: nat): string
  {
    if bytes == 0 then "0 B" else Decimal(Hundredths(bytes)) + " " + UnitName(UnitIndex(bytes))
  }

  /**
   * What `formatSize` shows: "0 B" for nothing; otherwise the unit 1024^i with
   * 1024^i <= bytes < 1024^(i+1), and a number that reads back as bytes / 1024^i rounded
   * to hundredths, between 1 and 1024.
   */
  lemma FormatSizeMeaning(bytes: nat)
    ensures bytes == 0 ==> FormatSize(bytes) == "0 B"
    ensures bytes >= 1 ==>
              var i, h := UnitIndex(bytes), Hundredths(bytes);
              FormatSize(bytes) == Decimal(h) + " " + UnitName(i)
              && Pow1024(i) <= bytes < Pow1024(i + 1)
              && 100 <= h <= 102400
              && ParseHundredths(Decimal(h)) == Some(h)
              && h as real - 0.5 <= (bytes * 100) as real / Pow1024(i) as real < h as real + 0.5
  {
    if bytes >= 1 {
      UnitIndexBounds(bytes);
      HundredthsBounds(bytes);
      DecimalRoundTrip(Hundredths(bytes));
    }
  }

  // ---------------------------------------------------------------------------
  // The list of compressed pictures

  /** A selected file: name, MIME type (`file.type`) and size in bytes. */
  datatype SourceFile = SourceFile(name: string, mime: string, size: nat)

  /** What `compressImage` resolves to besides the file: the blob's URL and size, and an id. */
  datatype Blob = Blob(url: string, size: nat, id: string)

  /** An entry of `images`. */
  datatype Entry = Entry(file: SourceFile, url: string, originalSize: nat, compressedSize: nat, name: string, id: string)

  /** A call `compressImage(file, quality)`, with the encoder quality it hands to `toBlob`. */
  datatype Request = Request(file: SourceFile, encoderQuality: real)

  /** `f.type.startsWith("image/")`. */
  predicate IsImageFile(f: SourceFile)
  {
    StartsWith(f.mime, "image/")
  }

  /** The slider's 10..100 becomes the encoder's 0..1 scale. */
  function EncoderQuality(quality: int): (q: real)
    ensures 10 <= quality <= 100 ==> 0.1 <= q <= 1.0
    ensures q * 100.0 == quality as real
  {
    quality as real / 100.0
  }

  /** The entry `compressImage` resolves for a file and its blob. */
  function EntryOf(f: SourceFile, b: Blob): Entry
  {
    Entry(f, b.url, f.size, b.size, f.name, b.id)
  }

  /** The compression calls `handleFiles(files)` makes: one per image file, in order. */
  function Requests(files: seq<SourceFile>, quality: int): (r: seq<Request>)
    ensures var accepted := Filter(files, IsImageFile);
            |r| == |accepted|
            && forall k :: 0 <= k < |r| ==> r[k].file == accepted[k] && r[k].encoderQuality == EncoderQuality(quality)
  {
    var accepted := Filter(files, IsImageFile);
    seq(|accepted|, k requires 0 <= k < |accepted| => Request(accepted[k], EncoderQuality(quality)))
  }

  /**
   * The list after `handleFiles(files)`: the image files, compressed, appended after the
   * pictures already there in the order they were selected.  `blobs[k]` is what the k-th
   * image file's compression resolved to.
   */
  function WithFiles(images: seq<Entry>, files: seq<SourceFile>, blobs: seq<Blob>): (r: seq<Entry>)
    requires |blobs| == |Filter(files, IsImageFile)|
    ensures |r| == |images| + |blobs| <= |images| + |files| && r[..|images|] == images
    ensures forall k :: 0 <= k < |r| - |images| ==> r[|images| + k].file == Filter(files, IsImageFile)[k]
    ensures forall k :: |images| <= k < |r| ==>
              IsImageFile(r[k].file) && r[k].file in files && r[k].name == r[k].file.name
              && r[k].originalSize == r[k].file.size && r[k].id == blobs[k - |images|].id
  {
    images + NewEntries(files, blobs)
  }

  /** The entries the compressions resolve to: one per image file, in order, with its blob. */
  function NewEntries(files: seq<SourceFile>, blobs: seq<Blob>): (added: seq<Entry>)
    requires |blobs| == |Filter(files, IsImageFile)|
    ensures var accepted := Filter(files, IsImageFile);
            |added| == |accepted| <= |files|
            && forall k :: 0 <= k < |added| ==>
                 added[k] == EntryOf(accepted[k], blobs[k]) && IsImageFile(accepted[k]) && accepted[k] in files
  {
    var accepted := Filter(files, IsImageFile);
    seq(|accepted|, k requires 0 <= k < |accepted| => EntryOf(accepted[k], blobs[k]))
  }

  /**
   * The appended entries are the image files in selection order: the k-th new entry
   * holds the file at position pos[k] of the selection, the positions strictly increase,
   * and every image file's position is among them.
   */
  lemma WithFilesInSelectionOrder(images: seq<Entry>, files: seq<SourceFile>, blobs: seq<Blob>) returns (pos: seq<nat>)
    requires |blobs| == |Filter(files, IsImageFile)|
    ensures var r := WithFiles(images, files, blobs);
            |pos| == |r| - |images|
            && (forall k :: 0 <= k < |pos| ==> pos[k] < |files| && r[|images| + k].file == files[pos[k]])
            && (forall k, k' :: 0 <= k < k' < |pos| ==> pos[k] < pos[k'])
            && (forall i :: 0 <= i < |files| && IsImageFile(files[i]) ==> i in pos)
  {
    pos := FilterPositions(files, IsImageFile);
  }

  /** When every file is an image all are added in order; when none is, nothing is. */
  lemma {:induction false} WithFilesAllOrNone(images: seq<Entry>, files: seq<SourceFile>, blobs: seq<Blob>)
    requires |blobs| == |Filter(files, IsImageFile)|
    ensures (forall i :: 0 <= i < |files| ==> IsImageFile(files[i])) ==>
              WithFiles(images, files, blobs)
                == images + seq(|files|, k requires 0 <= k < |files| && k < |blobs| => EntryOf(files[k], blobs[k]))
    ensures (forall i :: 0 <= i < |files| ==> !IsImageFile(files[i])) ==> WithFiles(images, files, blobs) == images
  {
    if forall i :: 0 <= i < |files| ==> !IsImageFile(files[i]) {
      FilterNone(files, IsImageFile);
    }
  }

  /** No two entries share an id. */
  predicate UniqueIds(images: seq<Entry>)
  {
    forall a, b :: 0 <= a < b < |images| ==> images[a].id != images[b].id
  }

  /** The blobs' ids are pairwise different and not in use. */
  predicate FreshIds(images: seq<Entry>, blobs: seq<Blob>)
  {
    (forall a, b :: 0 <= a < b < |blobs| ==> blobs[a].id != blobs[b].id)
    && forall k, q :: 0 <= k < |blobs| && 0 <= q < |images| ==> blobs[k].id != images[q].id
  }

  /** Adding files with fresh ids keeps ids unique. */
  lemma {:induction false} WithFilesKeepsUnique(images: seq<Entry>, files: seq<SourceFile>, blobs: seq<Blob>)
    requires |blobs| == |Filter(files, IsImageFile)| && FreshIds(images, blobs) && UniqueIds(images)
    ensures UniqueIds(WithFiles(images, files, blobs))
  {
    var r := WithFiles(images, files, blobs);
    var n := |images|;
    forall a, b | 0 <= a < b < |r| ensures r[a].id != r[b].id {
      if b < n {
        assert r[a] == images[a] && r[b] == images[b];
      } else if a < n {
        assert r[a] == images[a];
      }
    }
  }

  /** The filter test of `removeImage`: keep the entries with another id. */
  function OtherThan(id: string): Entry -> bool
  {
    (e: Entry) => e.id != id
  }

  /** `prev.filter((img) => img.id !== id)`. */
  function Removed(images: seq<Entry>, id: string): seq<Entry>
  {
    Filter(images, OtherThan(id))
  }

  /** Removing an entry deletes exactly it and keeps the others in order. */
  lemma {:induction false} RemovedDeletesOne(images: seq<Entry>, k: nat)
    requires UniqueIds(images) && k < |images|
    ensures Removed(images, images[k].id) == images[..k] + images[k + 1..]
  {
    FilterRemovesOne(images, OtherThan(images[k].id), k);
  }

  /** Removing an id nobody has changes nothing. */
  lemma RemovedUnknown(images: seq<Entry>, id: string)
    requires forall k :: 0 <= k < |images| ==> images[k].id != id
    ensures Removed(images, id) == images
  {
  }

  /** Removal keeps ids unique. */
  lemma {:induction false} RemovedKeepsUnique(images: seq<Entry>, id: string)
    requires UniqueIds(images)
    ensures UniqueIds(Removed(images, id))
  {
    if k :| 0 <= k < |images| && images[k].id == id {
      RemovedDeletesOne(images, k);
      var r := images[..k] + images[k + 1..];
      forall a, b | 0 <= a < b < |r| ensures r[a].id != r[b].id {
        var a', b' := if a < k then a else a + 1, if b < k then b else b + 1;
        assert r[a] == images[a'] && r[b] == images[b'];
      }
    } else {
      RemovedUnknown(images, id);
    }
  }

  /** `link.download = \`min-${img.name}\``. */
  function DownloadName(e: Entry): string
  {
    "min-" + e.name
  }

  /** The download name is the original name behind the "min-" prefix, so it can be recovered. */
  lemma DownloadNameRecovers(e: Entry)
    ensures StartsWith(DownloadName(e), "min-") && DownloadName(e)[4..] == e.name
  {
  }

  /** Every compression settled with a blob. */
  predicate AllSettled(outcomes: seq<Option<Blob>>)
  {
    forall k :: 0 <= k < |outcomes| ==> outcomes[k].Some?
  }

  /** The blobs of compressions that all settled, in order. */
  function SettledBlobs(outcomes: seq<Option<Blob>>): (b: seq<Blob>)
    requires AllSettled(outcomes)
    ensures |b| == |outcomes| && forall k :: 0 <= k < |b| ==> outcomes[k] == Some(b[k])
  {
    seq(|outcomes|, k requires 0 <= k < |outcomes| => outcomes[k].value)
  }

  /** The page state of the compressor. */
  class Compressor {
    var images: seq<Entry>
    var quality: int
    var isProcessing: bool

    /** Unique ids and a quality within the slider's range. */
    predicate Valid()
      reads this
    {
      UniqueIds(images) && 10 <= quality <= 100
    }

    /** The initial state: no pictures, quality 75, idle. */
    constructor ()
      ensures Valid() && images == [] && quality == 75 && !isProcessing
    {
      images := [];
      quality := 75;
      isProcessing := false;
    }

    /**
     * `handleFiles(files)`: one compression per image file at the current quality.
     * `outcomes[k]` is what the k-th image file's compression resolves to, or None when
     * its promise never settles: `compressImage` has no error path, so a file that does
     * not decode, or a canvas for which `toBlob` hands over no blob, leaves `Promise.all`
     * pending.  When all settle the results are appended in order and the page is idle
     * again; otherwise nothing is appended and the page stays busy.
     */
    method HandleFiles(files: seq<SourceFile>, outcomes: seq<Option<Blob>>) returns (requests: seq<Request>)
      requires Valid() && |outcomes| == |Filter(files, IsImageFile)|
      requires AllSettled(outcomes) ==> FreshIds(images, SettledBlobs(outcomes))
      modifies this`images, this`isProcessing
      ensures Valid()
      ensures requests == Requests(files, quality)
      ensures AllSettled(outcomes) ==> images == WithFiles(old(images), files, SettledBlobs(outcomes)) && !isProcessing
      ensures !AllSettled(outcomes) ==> images == old(images) && isProcessing
    {
      isProcessing := true;
      requests := Requests(files, quality);
      if AllSettled(outcomes) {
        var blobs := SettledBlobs(outcomes);
        WithFilesKeepsUnique(images, files, blobs);
        images := WithFiles(images, files, blobs);
        isProcessing := false;
      }
    }

    /** `removeImage(id)`. */
    method RemoveImage(id: string)
      requires Valid()
      modifies this`images
      ensures Valid()
      ensures images == Removed(old(images), id)
    {
      RemovedKeepsUnique(images, id);
      images := Removed(images, id);
    }

    /** The quality slider, 10 to 100. */
    method SetQuality(q: int)
      requires Valid() && 10 <= q <= 100
      modifies this`quality
      ensures Valid() && quality == q
    {
      quality := q;
    }

    /** `handleDownloadAll`: every entry is downloaded once, in list order. */
    method DownloadAll() returns (names: seq<string>)
      ensures |names| == |images|
      ensures forall k :: 0 <= k < |images| ==> names[k] == DownloadName(images[k])
    {
      names := [];
      var k := 0;
      while k < |images|
        invariant 0 <= k <= |images|
        invariant |names| == k
        invariant forall j :: 0 <= j < k ==> names[j] == DownloadName(images[j])
      {
        names := names + [DownloadName(images[k])];
        k := k + 1;
      }
    }
  }
}
