# SnapSizes image tools, modelled in Dafny

SnapSizes is a browser site for resizing pictures to social-media sizes. Its pages are a crop tool with a live preview, a social-media image tool, a bulk photo resizer, an image-to-PDF converter and an image compressor. It also has a bulk ZIP exporter and two preset tables. All pixel work is done by the browser's canvas, JSZip and jsPDF. This project models the logic the site adds on top of those calls and proves what that logic promises.

- **Resize geometry** (`geometry.dfy`). Every tool computes "contain" (fit) and "cover" (fill) rectangles, either as `Math.min`/`Math.max` of the two axis ratios or by comparing aspect ratios. Both forms are defined over `real` and proved equal. The contain rectangle lies inside the canvas, the cover rectangle covers it, both keep the aspect ratio and both are centred. Scaling the canvas scales the rectangle.
- **Nested export loops** (`grid.dfy`, `archive.dfy`, `bulk_export.dfy`, `bulk_photo_resizer.dfy`).
  - The image × size loops emit N·M writes in image-major order.
  - A JSZip archive is a log of `file(path, blob)` calls, and a later write replaces an earlier one with the same path. The archive therefore has N·M file entries exactly when base names and sizes are distinct, and two images with the same base name collide.
  - The batch stops at its first failure and saves nothing. Its progress rises to 100.
- **Workspaces as classes.**
  - The bulk resizer's upload admission, transforms and target sizes, in `bulk_photo_resizer.dfy` and `turns.dfy`.
  - The PDF tool's picture list, with `arrayMove` reordering, in `image_to_pdf_tool.dfy`.
  - The compressor's list, in `image_compressor_tool.dfy`.
  - The crop tool's state and export, in `crop_tool.dfy`.
  - The preview's canvas, watermark and drag state, in `preview.dfy`.
  - The social tool's state, in `social_media_image_tool.dfy`.

  Each handler is a method whose `ensures` gives the new state as a function of the old. The functions carry lemmas about what changes and what does not, and the class invariant is kept.
- **PDF page layout** (`pdf_engine.dfy`). It covers the content box, the fit/fill/original sizing, centring, one page per image in input order, and progress.
- **Byte-size formatting** (`image_compressor_tool.dfy`). `formatSize` picks the largest power of 1024 not above the byte count. It prints the quotient rounded to hundredths the way `parseFloat(x.toFixed(2))` does, and that text reads back as the rounded value.
- **Preset tables** (`platform_presets.dfy`, `sizes.dfy`, `dims_tags.dfy`). The tables are constant data with checked invariants: distinct keys, file names ending in `${width}x${height}`, consistent fit modes and backgrounds, and exact ratios.

Shared modules:
- `wrappers.dfy`: `Option`.
- `text.dfy`: decimal rendering, `lastIndexOf`, `split`, `\s` and `trim`.
- `rounding.dfy`: `Math.round` and progress percentages.
- `lists.dfy`: `filter`.
- `fit_modes.dfy`: the crop tool's fit modes and backgrounds.

Where the code and the site's own description differ, the model follows the code:
- In the PDF engine, "fill" spans the width and does not cover the page.
- The social tool saves one size at a time, not a multi-size ZIP.
- Bulk export has no skip-and-continue on errors.

## Model

| member | source | states |
|---|---|---|
| Geometry.Min | src/tools/CropTool.jsx:70 | `Math.min` returns one of its arguments and is no larger than either |
| Geometry.Max | src/tools/CropTool.jsx:72 | `Math.max` returns one of its arguments and is no smaller than either |
| Geometry.ContainScale | src/tools/CropTool.jsx:69-72 | at the "fit" scale `min(W/iw, H/ih)` the image is no larger than the canvas on either axis and equal to it on one |
| Geometry.CoverScale | src/utils/bulkExport.js:27 | at the "fill" scale `max(w/iw, h/ih)` the image is at least the canvas on both axes and equal to it on one |
| Geometry.ContainScaleIsLargest | src/tools/CropTool.jsx:69-72 | every scale at which the image fits is at most the "fit" scale |
| Geometry.CoverScaleIsSmallest | src/utils/bulkExport.js:27 | every scale at which the image covers the canvas is at least the "fill" scale |
| Geometry.ContainRect | src/tools/Preview.jsx:69-80 | the contain rectangle lies inside the canvas, touches one pair of edges, keeps the image's aspect ratio and has equal opposite margins |
| Geometry.CoverRect | src/utils/bulkExport.js:27-35 | the cover rectangle covers the canvas, is flush on one axis, keeps the aspect ratio and is centred (`dx`, `dy` ≤ 0) |
| Geometry.ContainRectIsLargest | src/tools/CropTool.jsx:69-80 | no centred, aspect-keeping rectangle that fits inside the canvas is wider than the contain rectangle |
| Geometry.ScalesScale | src/tools/Preview.jsx:69-72 | scaling the canvas by k > 0 multiplies both the min and the max scale by k |
| Geometry.CoverScaleInvariant | src/tools/Preview.jsx:69-80 | on a canvas scaled by k the cover rectangle is the original cover rectangle scaled by k |
| Geometry.ContainScaleInvariant | src/tools/Preview.jsx:69-80 | the same for the contain rectangle |
| Grid.ProductLength | src/utils/bulkExport.js:11-42 | the nested image × size loops emit exactly N·M writes |
| Grid.ProductAt | src/utils/bulkExport.js:11-42 | the write for image i and size j sits at position i·M + j (image-major, size-minor) |
| Grid.ProductEmpty | src/utils/bulkExport.js:11-15 | no image or no size means no write |
| Grid.Locate | src/utils/bulkExport.js:11-42 | every emitted write is the loop body applied to the (image, size) pair its position encodes |
| Grid.ProductDistinctIff | src/utils/bulkExport.js:39-41 | when the path names exactly an image key and a size, the writes have pairwise different paths iff keys and sizes are pairwise different (both directions) |
| Grid.ProductDistinct | src/utils/bulkExport.js:39-41 | distinct keys and distinct sizes give writes with pairwise different paths |
| Grid.DistinctNeedsKeys | src/utils/bulkExport.js:39-41 | conversely, pairwise different paths need pairwise different keys and sizes |
| Grid.ProductEntries | src/utils/bulkExport.js:41 | with distinct keys and sizes the archive ends with one entry per pair |
| Grid.ProductCollision | src/utils/bulkExport.js:41 | two images with the same key make later writes replace earlier ones, leaving fewer than N·M entries |
| Archive.Contents | src/utils/bulkExport.js:41 | the archive's entry names are exactly the paths written |
| Archive.EntryCount | src/utils/bulkExport.js:41 | the archive never has more entries than writes, and has as many iff no two writes share a path |
| Archive.ContentsAt | src/utils/bulkExport.js:41 | with distinct paths every write survives with its own blob |
| Archive.Folder.constructor | src/utils/bulkExport.js:9 | `zip.folder("snapsizes-export")` starts with no writes under its prefix |
| Archive.Folder.File | src/utils/bulkExport.js:41 | `folder.file(name, blob)` appends one write at `prefix/name` and nothing else |
| Archive.Zip.constructor | src/pages/BulkPhotoResizer.jsx:221 | `new JSZip()` starts empty |
| Archive.Zip.File | src/pages/BulkPhotoResizer.jsx:235 | `zip.file(name, blob)` appends one write under the name as given |
| BulkExport.StripExt | src/utils/bulkExport.js:83-85 | `stripExt` returns a prefix of the name |
| BulkExport.StripExtRemovesOneExtension | src/utils/bulkExport.js:83-85 | the name changes iff it ends in "." plus a non-empty extension without '.' or '/', and then exactly that ending goes |
| BulkExport.StripExtOfJoin | src/utils/bulkExport.js:83-85 | stripping `base + "." + ext` gives back `base` for every valid extension |
| BulkExport.StripExtExamples | src/utils/bulkExport.js:83-85 | "photo.JPG" → "photo" and "a.b.c" → "a.b" |
| BulkExport.StripExtHidden | src/utils/bulkExport.js:83-85 | ".hidden" → "" |
| BulkExport.StripExtKeepsExamples | src/utils/bulkExport.js:83-85 | "noext" and "a." are unchanged |
| BulkExport.EntryNameInjective | src/utils/bulkExport.js:39 | equal entry names `${stripExt(name)}_${w}x${h}.${format}` mean equal base names and equal sizes |
| BulkExport.EntryPathInjective | src/utils/bulkExport.js:39-41 | the same for the full path under `snapsizes-export/` |
| BulkExport.RenderPairCovers | src/utils/bulkExport.js:18-37 | each encoded canvas is w × h, the image covers it, flush on one axis, centred and keeping its proportions; "jpg" gives image/jpeg, anything else image/png, quality 0.92 |
| BulkExport.PairPathsIdentify | src/utils/bulkExport.js:39-41 | a write's path determines, and is determined by, the image's base name and the size |
| BulkExport.PlanDistinctIff | src/utils/bulkExport.js:11-42 | with an image and a size, no two writes share a path iff base names and sizes are pairwise different |
| BulkExport.ArchiveComplete | src/utils/bulkExport.js:11-45 | distinct base names and sizes give an archive of exactly N·M file entries under "snapsizes-export/" |
| BulkExport.SameBaseCollides | src/utils/bulkExport.js:39-41 | "a.png" and "a.jpg" write the same paths and the archive holds fewer than N·M entries |
| BulkExport.Loads | src/utils/bulkExport.js:11-13 | once every load succeeds, each image is paired with its own decoded size, in order |
| BulkExport.DrawCovered | src/utils/bulkExport.js:18-37 | one inner pass produces exactly the canvas RenderPairCovers describes |
| BulkExport.ExportRow | src/utils/bulkExport.js:15-42 | the inner loop appends the writes for every size of one image, in size order, and nothing else |
| BulkExport.BulkExportImages | src/utils/bulkExport.js:3-48 | the archive is saved iff every image loads; then it is named "snapsizes-bulk-export.zip" and holds the image-major plan; otherwise the first rejected image is reported and nothing is saved |
| Turns.JsRem | src/pages/BulkPhotoResizer.jsx:116-118 | JavaScript `%` with a positive divisor: the result lies strictly between −b and b and agrees with `%` for a ≥ 0 |
| Turns.RotateRight | src/pages/BulkPhotoResizer.jsx:118 | `(r + 90) % 360` keeps a rotation in {0, 90, 180, 270} |
| Turns.RotateLeft | src/pages/BulkPhotoResizer.jsx:116 | `(r − 90 + 360) % 360` keeps a rotation in {0, 90, 180, 270} |
| Turns.RightTurnStep | src/pages/BulkPhotoResizer.jsx:116-118 | a right turn adds 90 and wraps 270 to 0; a left turn subtracts 90 and wraps 0 to 270 |
| Turns.TurnsUndo | src/pages/BulkPhotoResizer.jsx:116-118 | left undoes right and right undoes left |
| Turns.FourTurns | src/pages/ImageToPdfTool.jsx:171-177 | four right turns are the identity |
| Turns.TurnFlipsSides | src/pages/BulkPhotoResizer.jsx:167 | each quarter turn toggles whether `rotation % 180 !== 0` |
| BulkPhotoResizer.Ext | src/pages/BulkPhotoResizer.jsx:229 | `exportFormat.split("/")[1]` is the MIME subtype: non-empty, without '/', '.' or '_' |
| BulkPhotoResizer.Admitted | src/pages/BulkPhotoResizer.jsx:63-97 | nothing is added when no slot is left; otherwise the old list is kept as a prefix, at most `limit − length` photos are added, each new one is unturned, unflipped, under 25 MiB and from the selection |
| BulkPhotoResizer.AdmittedInOrder | src/pages/BulkPhotoResizer.jsx:74-95 | the new photos are exactly the first `min(slots, #valid)` files that pass the size filter, in selection order; when all fit, all are appended |
| BulkPhotoResizer.AdmittedKeepsInvariant | src/pages/BulkPhotoResizer.jsx:84-95 | with fresh ids, upload keeps ids unique, rotations quarter turns and every file ≤ 25 MiB |
| BulkPhotoResizer.RemovedDeletesOne | src/pages/BulkPhotoResizer.jsx:99-108 | removing an id deletes exactly that entry and keeps the others in order |
| BulkPhotoResizer.RemovedUnknown | src/pages/BulkPhotoResizer.jsx:106 | removing an unknown id changes nothing |
| BulkPhotoResizer.DeletedKeepsInvariant | src/pages/BulkPhotoResizer.jsx:106 | deleting one entry keeps the workspace invariant |
| BulkPhotoResizer.RemovedKeepsInvariant | src/pages/BulkPhotoResizer.jsx:99-108 | removal keeps ids unique, rotations quarter turns, files under the limit |
| BulkPhotoResizer.Transformed | src/pages/BulkPhotoResizer.jsx:110-128 | `updateTransform` keeps length, ids, names and files, and leaves every photo with another id unchanged; TransformedTarget gives what happens to the photo with the id |
| BulkPhotoResizer.TransformedTarget | src/pages/BulkPhotoResizer.jsx:110-128 | for the photo with the id, "rot-right" sets the rotation to (r + 90) % 360, "rot-left" to (r − 90 + 360) % 360, "flip-h" and "flip-v" toggle exactly their own flag, and any other type changes nothing |
| BulkPhotoResizer.UnknownTransformKeeps | src/pages/BulkPhotoResizer.jsx:123-124 | an unknown transform type changes nothing |
| BulkPhotoResizer.TransformedKeepsInvariant | src/pages/BulkPhotoResizer.jsx:110-128 | transforms keep every rotation in {0, 90, 180, 270} and ids unique |
| BulkPhotoResizer.TransformsUndo | src/pages/BulkPhotoResizer.jsx:115-122 | left then right, and each flip twice, give the workspace back |
| BulkPhotoResizer.FourRightTurns | src/pages/BulkPhotoResizer.jsx:117-118 | four right turns give the workspace back |
| BulkPhotoResizer.WithCustomSize | src/pages/BulkPhotoResizer.jsx:130-137 | the size is appended as "Custom" iff no entry has the same w × h and fewer than four exist; otherwise nothing changes; uniqueness and the bound of four are kept |
| BulkPhotoResizer.WithoutSize | src/pages/BulkPhotoResizer.jsx:139-143 | with one size left nothing changes; with more, a valid index removes exactly the entry at that index and keeps the others in order, and an index outside the list changes nothing; the list is never emptied and stays unique |
| BulkPhotoResizer.DrawIsCover | src/pages/BulkPhotoResizer.jsx:160-176 | on the canvas, the turned and flipped drawing is exactly the cover rectangle of the picture with its sides swapped for 90° and 270° |
| BulkPhotoResizer.DrawRectScaled | src/pages/BulkPhotoResizer.jsx:171-176 | the drawImage rectangle is `(−drawW/2, −drawH/2, drawW, drawH)` at the cover scale of the turned picture |
| BulkPhotoResizer.FootprintOfCentred | src/pages/BulkPhotoResizer.jsx:160-164 | a rectangle centred on the translated origin lands on the canvas as the turned picture, centred |
| BulkPhotoResizer.DrawCoversCanvas | src/pages/BulkPhotoResizer.jsx:166-176 | the turned photo covers the canvas, is flush on one axis, is centred, and keeps its proportions |
| BulkPhotoResizer.ProcessSingleImage | src/pages/BulkPhotoResizer.jsx:146-191 | resolves with the white-backed, turned, flipped, cover-drawn canvas when decoding and encoding succeed, and rejects otherwise |
| BulkPhotoResizer.BatchBase | src/pages/BulkPhotoResizer.jsx:230-232 | the batch base is a prefix of the name; when shorter it is non-empty and ends right before the last '.' |
| BulkPhotoResizer.BatchBaseKeepsWhole | src/pages/BulkPhotoResizer.jsx:230-232 | the whole name is kept iff it has no '.' after its first character |
| BulkPhotoResizer.BatchNameInjective | src/pages/BulkPhotoResizer.jsx:233 | equal batch entry names mean equal base names and equal sizes |
| BulkPhotoResizer.SingleMatchesBatch | src/pages/BulkPhotoResizer.jsx:202-204 | for a name with one '.', not in front, the single and batch names agree |
| BulkPhotoResizer.BaseNameExamples | src/pages/BulkPhotoResizer.jsx:202 | the single download names "holiday.v2.jpg" by "holiday" |
| BulkPhotoResizer.BatchBaseExample | src/pages/BulkPhotoResizer.jsx:230-232 | the batch names "holiday.v2.jpg" by "holiday.v2" |
| BulkPhotoResizer.BaseNameDotFile | src/pages/BulkPhotoResizer.jsx:230-232 | ".env" gives "" for the single download and ".env" in the batch |
| BulkPhotoResizer.Dimensions | src/pages/BulkPhotoResizer.jsx:227-228 | the batch uses each target size's width and height, in order |
| BulkPhotoResizer.BatchPlanOrder | src/pages/BulkPhotoResizer.jsx:222-235 | the batch writes N·M entries; entry i·M + j is photo i at size j, named `${base}_${w}x${h}.${ext}` |
| BulkPhotoResizer.BatchPathsIdentify | src/pages/BulkPhotoResizer.jsx:233 | an entry name determines, and is determined by, the photo's base name and the size |
| BulkPhotoResizer.UniqueSizesDistinct | src/pages/BulkPhotoResizer.jsx:130-137 | target sizes unique by w × h iff their dimension pairs are pairwise different |
| BulkPhotoResizer.BatchArchiveComplete | src/pages/BulkPhotoResizer.jsx:226-243 | photos with distinct base names give an archive of exactly N·M entries |
| BulkPhotoResizer.BatchSameBaseCollides | src/pages/BulkPhotoResizer.jsx:230-235 | two photos with the same base name collide and the archive holds fewer than N·M entries |
| BulkPhotoResizer.FailureBlocksAll | src/pages/BulkPhotoResizer.jsx:244-246 | a failing pair means the batch cannot complete |
| BulkPhotoResizer.StepsDone | src/pages/BulkPhotoResizer.jsx:222-238 | the number of completed pairs never exceeds N·M |
| BulkPhotoResizer.Resizer.constructor | src/pages/BulkPhotoResizer.jsx:19-26 | the initial state: no photos, the two default sizes, 800 × 800 custom size, JPEG at 0.8, locked, idle, progress 0 |
| BulkPhotoResizer.Resizer.HandleReset | src/pages/BulkPhotoResizer.jsx:49-61 | a non-empty workspace is cleared, with progress 0, only on confirmation |
| BulkPhotoResizer.Resizer.HandleFileUpload | src/pages/BulkPhotoResizer.jsx:63-97 | the new list is Admitted of the old one under the current limit (6, or 10 once unlocked), and the invariant holds |
| BulkPhotoResizer.Resizer.RemoveImage | src/pages/BulkPhotoResizer.jsx:99-108 | the new list is the old one without the id |
| BulkPhotoResizer.Resizer.UpdateTransform | src/pages/BulkPhotoResizer.jsx:110-128 | the new list is Transformed of the old one: only the photo with the id turns or flips, as TransformedTarget states |
| BulkPhotoResizer.Resizer.SetCustomSize | src/pages/BulkPhotoResizer.jsx:300-318 | the custom size inputs store the parsed values, 0 for unparsable text |
| BulkPhotoResizer.Resizer.AddCustomSize | src/pages/BulkPhotoResizer.jsx:130-137 | the size list becomes WithCustomSize of the old one; zero sizes are not rejected |
| BulkPhotoResizer.Resizer.RemoveSize | src/pages/BulkPhotoResizer.jsx:139-143 | the size list becomes WithoutSize of the old one (the entry at index goes, the rest keep their order) and keeps one to four unique sizes |
| BulkPhotoResizer.Resizer.Unlock | src/pages/BulkPhotoResizer.jsx:394 | the limit rises to 10 and the invariant holds |
| BulkPhotoResizer.Resizer.HandleSingleDownload | src/pages/BulkPhotoResizer.jsx:194-210 | the photo at the first size (1080 × 1080 without one) saved under its name before the first '.', or nothing when processing rejects |
| BulkPhotoResizer.Resizer.HandleBatchDownload | src/pages/BulkPhotoResizer.jsx:213-251 | no sizes: only an alert; the archive is saved iff every pair resolves and then holds the photo-major plan; otherwise the first failing pair is reported; progress values are 0, then round(100·k/(N·M)) per pair, then 0, and processing ends |
| BulkPhotoResizer.RunBatch | src/pages/BulkPhotoResizer.jsx:226-240 | both loops complete iff every pair resolves and then the archive holds the plan; otherwise they stop at the first failure in photo-major order; progress is reported once per completed pair |
| BulkPhotoResizer.ExportPair | src/pages/BulkPhotoResizer.jsx:228-235 | one pair adds its entry exactly when processing resolves |
| BulkPhotoResizer.BatchRow | src/pages/BulkPhotoResizer.jsx:227-239 | the inner loop adds every size's entry in order, or stops at the first size that fails, reporting progress after each |
| Rounding.Round | src/tools/Preview.jsx:41-42 | `Math.round(x)` is the integer within half a unit of x, halves rounded up |
| Rounding.RoundMonotone | src/pages/BulkPhotoResizer.jsx:238 | rounding keeps the order of two numbers |
| Rounding.Percent | src/pages/BulkPhotoResizer.jsx:238 | `Math.round((k / n) * 100)` lies in 0..100, is 0 before any step and 100 after the last |
| Rounding.PercentMonotone | src/pages/BulkPhotoResizer.jsx:237-238 | the percentage never goes down as steps complete |
| Rounding.PercentAsQuotient | src/pages/BulkPhotoResizer.jsx:238 | the rounded percentage is the integer quotient `(200·k + n) / (2·n)` |
| Rounding.ProgressTraceRises | src/utils/pdfEngine.js:86 | an n-step job reports n values, each in 0..100, never decreasing, the last being 100 |
| Rounding.ProgressPrefix | src/pages/BulkPhotoResizer.jsx:237-238 | the values reported from the first step on are a prefix of that trace |
| Rounding.ProgressExtend | src/pages/BulkPhotoResizer.jsx:237-238 | reports of later steps continue the record of earlier ones |
| Text.NatToString | src/utils/bulkExport.js:39 | `${n}` is a non-empty digit string without a leading zero |
| Text.NatToStringRoundTrip | src/utils/bulkExport.js:39 | reading the decimal rendering back gives the number |
| Text.NatToStringInjective | src/utils/bulkExport.js:39 | distinct numbers render differently |
| Text.IntToString | src/utils/bulkExport.js:39 | `${i}` is the digits of \|i\|, with a minus sign in front when i < 0 |
| Text.IntToStringAlphabet | src/utils/bulkExport.js:39 | `${i}` holds only digits and a leading '-', so no 'x', '.' or '_' |
| Text.IntToStringInjective | src/utils/bulkExport.js:39 | distinct integers render differently |
| Text.DimsTagSeparators | src/utils/bulkExport.js:39 | the `${w}x${h}` tag holds no '_' and no '.' |
| Text.DimsTagInjective | src/utils/bulkExport.js:39 | the `${w}x${h}` tag determines w and h |
| Text.SplitTaggedName | src/utils/bulkExport.js:39 | a name `base_tag.ext` splits back into its base and tag |
| Text.LastIndexOf | src/pages/BulkPhotoResizer.jsx:231 | `lastIndexOf` gives the last index holding the character, or −1 when there is none |
| Text.LastIndexOfAt | src/pages/BulkPhotoResizer.jsx:231 | the index of a character with none after it is the last index |
| Text.BeforeFirst | src/pages/BulkPhotoResizer.jsx:202 | `split(c)[0]` is the longest prefix without c |
| Text.BeforeFirstAt | src/pages/SocialMediaImageTool.jsx:62 | when the first c is at i, `split(c)[0]` is the first i characters |
| Text.DropWhitespace | src/tools/Preview.jsx:82 | the suffix after the leading whitespace, starting with a non-whitespace character |
| Text.DropTrailingWhitespace | src/tools/Preview.jsx:82 | the prefix before the trailing whitespace, ending with a non-whitespace character |
| Text.TrimEmptyIff | src/tools/Preview.jsx:82 | `text.trim()` is empty iff every character is whitespace |
| Text.BlankAll | src/tools/Preview.jsx:82 | a blank text is one made only of whitespace |
| Text.BlankIff | src/tools/Preview.jsx:82 | a blank text is one whose `trim()` is empty |
| Text.UnderscoreWhitespace | src/pages/SocialMediaImageTool.jsx:158 | `replace(/\s+/g, "_")` leaves no whitespace and never lengthens the text; with the Prefix and Run lemmas its value on every text is fixed |
| Text.UnderscoreWhitespaceIdentity | src/pages/SocialMediaImageTool.jsx:158 | text without whitespace is unchanged, so the replacement is idempotent |
| Text.UnderscoreWhitespacePrefix | src/pages/SocialMediaImageTool.jsx:158 | a leading stretch without whitespace is copied |
| Text.UnderscoreWhitespaceSpace | src/pages/SocialMediaImageTool.jsx:158 | one whitespace character before a word becomes one '_' |
| Text.UnderscoreWhitespaceRun | src/pages/SocialMediaImageTool.jsx:158 | a whole run of whitespace, of any length, followed by a non-whitespace character or the end, becomes one '_' |
| Text.UnderscoreWhitespaceWord | src/pages/SocialMediaImageTool.jsx:158 | a word, one whitespace run and the rest become the word, one '_' and the rest replaced |
| Text.UnderscoreTwoWords | src/pages/SocialMediaImageTool.jsx:158 | two plain words separated by a space are joined by one '_' |
| Text.UnderscoreWordThen | src/pages/SocialMediaImageTool.jsx:158 | a plain word and a space before more text become the word and one '_' before the replaced rest |
| Text.UnderscoreFourWords | src/pages/SocialMediaImageTool.jsx:158 | four plain words separated by single spaces are joined by underscores |
| Lists.Filter | src/pages/ImageToPdfTool.jsx:142 | `filter` keeps only entries that pass, keeps every entry that passes, and keeps everything when all pass |
| Lists.FilterPositions | src/pages/ImageToPdfTool.jsx:142 | the k-th kept entry is the entry at a position pos[k]; the positions strictly increase and include every passing position, so `filter` keeps exactly the passing entries in their original order |
| Lists.FilterAppend | src/pages/ImageToPdfTool.jsx:142 | filtering works piece by piece, so kept entries stay in their order |
| Lists.FilterRemovesOne | src/pages/ImageToPdfTool.jsx:167 | when exactly one entry fails, `filter` deletes it and nothing else |
| Lists.FilterNone | src/pages/ImageToPdfTool.jsx:142 | when no entry passes nothing is kept |
| PdfEngine.PageDims | src/utils/pdfEngine.js:16-24 | the page is positive, taller than wide in portrait (the default) and wider than tall in landscape |
| PdfEngine.Avail | src/utils/pdfEngine.js:25-29 | the printable area is the page less a margin on each side, and positive |
| PdfEngine.Pages | src/utils/pdfEngine.js:31-34 | one page per image |
| PdfEngine.FitIsContain | src/utils/pdfEngine.js:43-58 | the ratio-comparison "fit" branches give exactly the image scaled by `min(aw/iw, ah/ih)` |
| PdfEngine.FitPlacementIsContain | src/utils/pdfEngine.js:43-79 | in "fit" mode the placed box is the contain rectangle of the printable area moved in by the margin, so it lies inside `[margin, page − margin]` |
| PdfEngine.FillSpansWidth | src/utils/pdfEngine.js:60-63 | "fill" spans the printable width and keeps the proportions |
| PdfEngine.FillOverflowsTallImage | src/utils/pdfEngine.js:60-63 | on A4 with 10 mm margins a 100 × 1000 image runs past the printable height, so "fill" is not a cover |
| PdfEngine.OriginalSize | src/utils/pdfEngine.js:64-75 | "original" prints at 0.264583 mm per pixel unless that is wider than the printable area, then shrinks to its width with the proportions kept; only the width is capped |
| PdfEngine.OriginalOverflowsTallImage | src/utils/pdfEngine.js:70-74 | a 100 × 2000 image in "original" mode runs past the printable height |
| PdfEngine.PlacementCentred | src/utils/pdfEngine.js:77-84 | every mode centres the image in the printable area on both axes and passes the URL and rotation through |
| PdfEngine.LayoutPages | src/utils/pdfEngine.js:15-89 | one page per image (one blank page for none), page i holding image i alone, in input order |
| PdfEngine.PagesAt | src/utils/pdfEngine.js:31-84 | page i holds exactly the placement of image i |
| PdfEngine.PdfDoc.constructor | src/utils/pdfEngine.js:17-21 | `new jsPDF` has one blank page of the given size |
| PdfEngine.PdfDoc.AddPage | src/utils/pdfEngine.js:32 | `addPage` appends one blank page |
| PdfEngine.PdfDoc.AddImage | src/utils/pdfEngine.js:84 | `addImage` puts the image on the last page and changes nothing else |
| PdfEngine.GeneratePdf | src/utils/pdfEngine.js:15-90 | the document has the configured page size and the layout's pages, and the progress values are the n-step trace |
| PdfEngine.LayoutSnoc | src/utils/pdfEngine.js:31-34 | image i adds a new page unless it is the first, which uses the initial page |
| ImageToPdfTool.WithFiles | src/pages/ImageToPdfTool.jsx:140-150 | the old list is kept as a prefix; exactly one entry per "image/" file is appended, the k-th holding the k-th image file of the selection, unturned, with its fresh id and URL |
| ImageToPdfTool.WithFilesInSelectionOrder | src/pages/ImageToPdfTool.jsx:140-150 | the appended pictures hold the selection's image files at strictly increasing positions, and every image file of the selection is among them |
| ImageToPdfTool.WithFilesAllOrNone | src/pages/ImageToPdfTool.jsx:140-150 | the two extreme selections: when all files are images they are all appended in order; when none is the list is unchanged |
| ImageToPdfTool.WithFilesKeepsInvariant | src/pages/ImageToPdfTool.jsx:140-150 | with fresh ids, adding keeps ids unique and rotations quarter turns |
| ImageToPdfTool.ArrayMovePlaces | src/pages/ImageToPdfTool.jsx:158 | `arrayMove` puts the moved entry at `to`, keeps the others in their relative order, and is a permutation |
| ImageToPdfTool.ArrayMoveUndo | src/pages/ImageToPdfTool.jsx:158 | moving back to where it came from undoes the move |
| ImageToPdfTool.IndexOfId | src/pages/ImageToPdfTool.jsx:156-157 | `findIndex` is the first index with the id, or −1 |
| ImageToPdfTool.IndexOfOwnId | src/pages/ImageToPdfTool.jsx:156-157 | with unique ids a picture's id finds its own index |
| ImageToPdfTool.DragEndMoves | src/pages/ImageToPdfTool.jsx:152-161 | dropping a onto b puts a where b was, keeps the others in order and is a permutation; dropping on nothing or on itself changes nothing |
| ImageToPdfTool.DragEndKeepsInvariant | src/pages/ImageToPdfTool.jsx:152-161 | reordering keeps ids unique and rotations quarter turns |
| ImageToPdfTool.RemovedDeletesOne | src/pages/ImageToPdfTool.jsx:163-169 | removing a picture's id deletes exactly that entry and keeps the others in order |
| ImageToPdfTool.RemovedUnknown | src/pages/ImageToPdfTool.jsx:167 | removing an unknown id changes nothing |
| ImageToPdfTool.RemovedKeepsInvariant | src/pages/ImageToPdfTool.jsx:163-169 | removal keeps ids unique and rotations quarter turns |
| ImageToPdfTool.Rotated | src/pages/ImageToPdfTool.jsx:171-177 | the list keeps its length |
| ImageToPdfTool.RotatedTurnsOne | src/pages/ImageToPdfTool.jsx:171-177 | only the picture with the id changes, and only by a right quarter turn; all keep their place, id, file and URL |
| ImageToPdfTool.RotatedKeepsInvariant | src/pages/ImageToPdfTool.jsx:171-177 | turning keeps rotations in {0, 90, 180, 270} and ids unique |
| ImageToPdfTool.FourRotations | src/pages/ImageToPdfTool.jsx:171-177 | four turns give the list back |
| ImageToPdfTool.SliderMarginValid | src/pages/ImageToPdfTool.jsx:255-262 | every margin of 0..50 mm leaves a printable area on every format and orientation, and a margin of 0 means no margin |
| ImageToPdfTool.PdfImages | src/pages/ImageToPdfTool.jsx:185 | each picture is passed to `generatePdf` in list order |
| ImageToPdfTool.ExportFollowsList | src/pages/ImageToPdfTool.jsx:179-185 | the exported document has one page per picture, page i for picture i of the current list |
| ImageToPdfTool.ImageToPdf.constructor | src/pages/ImageToPdfTool.jsx:97-106 | no pictures, A4 portrait, 10 mm margins, "fit", not generating, progress 0 |
| ImageToPdfTool.ImageToPdf.HandleFiles | src/pages/ImageToPdfTool.jsx:140-150 | the list becomes WithFiles of the old one (the image files appended in selection order) and ids stay unique |
| ImageToPdfTool.ImageToPdf.HandleDragEnd | src/pages/ImageToPdfTool.jsx:152-161 | the list becomes DragEnd of the old one |
| ImageToPdfTool.ImageToPdf.RemoveImage | src/pages/ImageToPdfTool.jsx:163-169 | the list loses the picture with the id |
| ImageToPdfTool.ImageToPdf.RotateImage | src/pages/ImageToPdfTool.jsx:171-177 | the list becomes Rotated of the old one |
| ImageToPdfTool.ImageToPdf.Clear | src/pages/ImageToPdfTool.jsx:416 | the list is emptied |
| ImageToPdfTool.ImageToPdf.SetMargin | src/pages/ImageToPdfTool.jsx:255-262 | the slider sets the margin, within 0..50, and nothing else |
| ImageToPdfTool.ImageToPdf.SetPageSize | src/pages/ImageToPdfTool.jsx:245-253 | the select sets the page size to A4 or Letter and nothing else |
| ImageToPdfTool.ImageToPdf.HandleExport | src/pages/ImageToPdfTool.jsx:179-198 | an empty list does nothing; otherwise the layout of the list in its current order is produced, progress shows 10, then the engine's trace, then 100, and generation stops |
| SocialMediaImageTool.PresetIdsDistinct | src/pages/SocialMediaImageTool.jsx:5-41 | five presets with pairwise different ids |
| SocialMediaImageTool.ForegroundIsScaleForm | src/pages/SocialMediaImageTool.jsx:118-139 | the ratio-comparison branches give exactly the cover rectangle (`max` scale) for "cover" and the contain rectangle (`min` scale) for the other modes |
| SocialMediaImageTool.ForegroundWider | src/pages/SocialMediaImageTool.jsx:121-123 | a relatively wider picture: "cover" pins the height, the other modes the width, each equal to the scale form |
| SocialMediaImageTool.ForegroundNarrower | src/pages/SocialMediaImageTool.jsx:124-135 | otherwise "cover" pins the width and the other modes the height, each equal to the scale form |
| SocialMediaImageTool.ScalesWhenWider | src/pages/SocialMediaImageTool.jsx:121-123 | when `imgRatio > canvasRatio` the max scale is H/ih and the min scale W/iw |
| SocialMediaImageTool.ScalesWhenNarrower | src/pages/SocialMediaImageTool.jsx:124-135 | otherwise the max scale is W/iw and the min scale H/ih |
| SocialMediaImageTool.ForegroundFits | src/pages/SocialMediaImageTool.jsx:118-143 | "cover" covers the canvas, the contain modes lie inside it, and in every mode the picture is flush on one axis, keeps `drawW/drawH = imgRatio` and is centred |
| SocialMediaImageTool.BackgroundCovers | src/pages/SocialMediaImageTool.jsx:94-115 | "blur" draws the cover-scaled centred backdrop, which covers the canvas; "contain-white" fills white; "cover" and "contain-black" fill black |
| SocialMediaImageTool.BaseName | src/pages/SocialMediaImageTool.jsx:62 | the file name is the name's prefix up to its first '.', without any '.' |
| SocialMediaImageTool.DownloadNameParts | src/pages/SocialMediaImageTool.jsx:158-159 | the label part of the download name has no whitespace left, and a label without whitespace is kept as it is |
| SocialMediaImageTool.TwoWordCaption | src/pages/SocialMediaImageTool.jsx:158 | two words separated by one whitespace character, as in "Instagram Post", are joined by one '_' |
| SocialMediaImageTool.IgPostLabel | src/pages/SocialMediaImageTool.jsx:6-12 | the "Instagram Post" label becomes "Instagram_Post" in the download name |
| SocialMediaImageTool.IgStoryLabel | src/pages/SocialMediaImageTool.jsx:13-19 | the "Reels, Stories, YouTube Shorts" label becomes "Reels,_Stories,_YouTube_Shorts" |
| SocialMediaImageTool.YtThumbLabel | src/pages/SocialMediaImageTool.jsx:20-26 | the "YouTube Thumbnail" label becomes "YouTube_Thumbnail" |
| SocialMediaImageTool.LiPostLabel | src/pages/SocialMediaImageTool.jsx:27-33 | the "LinkedIn Post" label becomes "LinkedIn_Post" |
| SocialMediaImageTool.WaDpLabel | src/pages/SocialMediaImageTool.jsx:34-40 | the "WhatsApp DP" label becomes "WhatsApp_DP" |
| SocialMediaImageTool.SocialTool.constructor | src/pages/SocialMediaImageTool.jsx:44-51 | no picture, the first preset, "blur", JPEG at 0.9, idle |
| SocialMediaImageTool.SocialTool.HandleFileUpload | src/pages/SocialMediaImageTool.jsx:57-62 | a missing or non-"image/" file changes nothing; otherwise decoding starts and the base name becomes the file name |
| SocialMediaImageTool.SocialTool.ImageLoaded | src/pages/SocialMediaImageTool.jsx:67-71 | the decoded picture becomes the source and decoding ends |
| SocialMediaImageTool.SocialTool.ImageFailed | src/pages/SocialMediaImageTool.jsx:73-76 | decoding ends |
| SocialMediaImageTool.SocialTool.MountCanvas | src/pages/SocialMediaImageTool.jsx:212-239 | the canvas exists once there is a picture |
| SocialMediaImageTool.SocialTool.DrawCanvas | src/pages/SocialMediaImageTool.jsx:81-144 | without a picture or a canvas nothing changes; otherwise the canvas holds the preset-sized drawing of both layers |
| SocialMediaImageTool.SocialTool.SelectPreset | src/pages/SocialMediaImageTool.jsx:254 | the preset is chosen and a drawn canvas takes exactly its width × height |
| SocialMediaImageTool.SocialTool.HandleDownload | src/pages/SocialMediaImageTool.jsx:150-164 | with a canvas it is saved under DownloadName with the chosen type and quality and processing ends; without one nothing is saved and processing stays on |
| SocialSizes.KeysDistinct | src/utils/sizes.js:1-116 | nine entries with pairwise different keys |
| SocialSizes.SizesWellFormed | src/utils/sizes.js:5-115 | every entry's file name ends with `${width}x${height}`, its ratio is exactly width/height, "blur" only comes with "fit", and its platform is Instagram, YouTube, WhatsApp or LinkedIn |
| SocialSizes.InstagramSquareChecked | src/utils/sizes.js:5-15 | the square Instagram entry is consistent |
| SocialSizes.InstagramPortraitChecked | src/utils/sizes.js:16-26 | the portrait Instagram entry is consistent |
| SocialSizes.InstagramStoryChecked | src/utils/sizes.js:27-37 | the Instagram story entry is consistent |
| SocialSizes.YouTubeShortsChecked | src/utils/sizes.js:42-52 | the YouTube Shorts entry is consistent |
| SocialSizes.YouTubeThumbnailChecked | src/utils/sizes.js:53-63 | the YouTube thumbnail entry is consistent |
| SocialSizes.WhatsAppDpChecked | src/utils/sizes.js:68-78 | the WhatsApp DP entry is consistent |
| SocialSizes.WhatsAppStatusChecked | src/utils/sizes.js:79-89 | the WhatsApp status entry is consistent |
| SocialSizes.LinkedInPostChecked | src/utils/sizes.js:94-104 | the LinkedIn post entry is consistent |
| SocialSizes.LinkedInBannerChecked | src/utils/sizes.js:105-115 | the LinkedIn banner entry is consistent |
| PlatformPresets.AllItems | src/data/platformPresets.js:1-167 | eleven size buttons of the table as written, every item of every group among them |
| PlatformPresets.CorrectedItems | src/data/platformPresets.js:1-167 | the corrected table differs from the table as written only in its eleventh button, the Facebook post |
| PlatformPresets.GroupNamesDistinct | src/data/platformPresets.js:1-167 | six groups with pairwise different platform names |
| PlatformPresets.KeysDistinct | src/data/platformPresets.js:8-165 | item keys are pairwise different across all groups |
| PlatformPresets.ItemsWellFormed | src/data/platformPresets.js:8-165 | in the table as written every item's file name ends with `${width}x${height}`, its background is never "white" and "blur" only comes with "fit"; every item but the Facebook post has ratio width/height |
| PlatformPresets.CorrectedItemsExact | src/data/platformPresets.js:8-165 | in the corrected table every item is well formed and its ratio is width/height |
| PlatformPresets.IgPostChecked | src/data/platformPresets.js:8-18 | the Instagram post item is well formed, ratio exact |
| PlatformPresets.IgPortraitChecked | src/data/platformPresets.js:19-28 | the Instagram portrait item is well formed, ratio exact |
| PlatformPresets.IgStoryChecked | src/data/platformPresets.js:29-39 | the Instagram story item is well formed, ratio exact |
| PlatformPresets.YtShortsChecked | src/data/platformPresets.js:49-59 | the YouTube Shorts item is well formed, ratio exact |
| PlatformPresets.YtThumbChecked | src/data/platformPresets.js:60-69 | the YouTube thumbnail item is well formed, ratio exact |
| PlatformPresets.WaDpChecked | src/data/platformPresets.js:79-88 | the WhatsApp DP item is well formed, ratio exact |
| PlatformPresets.WaStatusChecked | src/data/platformPresets.js:89-98 | the WhatsApp status item is well formed, ratio exact |
| PlatformPresets.LiPostChecked | src/data/platformPresets.js:108-117 | the LinkedIn post item is well formed, ratio exact |
| PlatformPresets.LiBannerChecked | src/data/platformPresets.js:118-127 | the LinkedIn banner item is well formed, ratio exact |
| PlatformPresets.XPostChecked | src/data/platformPresets.js:137-146 | the X post item is well formed, ratio exact |
| PlatformPresets.FbPostChecked | src/data/platformPresets.js:156-165 | the Facebook post with ratio 1200/630 = 40/21 is well formed and exact |
| PlatformPresets.FacebookRatioAsWritten | src/data/platformPresets.js:161 | the Facebook post as written is well formed, but its ratio 1.91 exceeds 1200/630 by 11/2100 |
| Preview.PreviewSizeKeepsRatio | src/tools/Preview.jsx:26-39 | without a ratio the canvas is 360 × min(0.6·innerHeight, 520); with one, cw = r·ch exactly; r > 1 keeps width 360 (and the canvas is lower than wide), otherwise the height is maxHeight; a positive ratio and window give a positive canvas |
| Preview.BackdropCovers | src/tools/Preview.jsx:46-67 | a backdrop is painted only in "fit" mode: "#000" for black, "#fff" for white, and for blur the cover-scaled centred copy, which covers the canvas |
| Preview.ImageRectFits | src/tools/Preview.jsx:69-80 | "fit" places the contain rectangle, inside the canvas; every other mode the cover rectangle, covering it; always aspect-keeping, centred and flush on one axis |
| Preview.ImageRectScales | src/tools/Preview.jsx:69-80 | the picture on a canvas scaled by k is the original picture scaled by k |
| Preview.BackdropScales | src/tools/Preview.jsx:46-67 | fills stay and the blurred copy scales with the canvas |
| Preview.WatermarkShownIff | src/tools/Preview.jsx:82-88 | the watermark is drawn iff `text.trim()` is non-empty, i.e. iff the text holds a non-whitespace character, and it is then the text in white at the mark, size and opacity chosen |
| Preview.RenderSize | src/tools/Preview.jsx:41-80 | the canvas width and height are the preview size rounded to the nearest integer, and the picture lies inside ("fit") or covers (other modes) the unrounded canvas |
| Preview.RenderAt | src/tools/Preview.jsx:19-89 | a frame is the rounded canvas size, the backdrop and picture on the unrounded size, and the watermark |
| Preview.SizeCanvas | src/tools/Preview.jsx:26-39 | the `let cw/ch` reassignments compute the preview size |
| Preview.PreviewCanvas.constructor | src/tools/Preview.jsx:13-17 | no text, opacity 0.6, size 24, mark at (40, 40), not dragging |
| Preview.PreviewCanvas.Draw | src/tools/Preview.jsx:19-24 | without a canvas or a picture nothing changes; otherwise the canvas shows the frame Render describes and the alpha is back at 1 |
| Preview.PreviewCanvas.Paint | src/tools/Preview.jsx:26-88 | the drawing steps produce exactly the frame Render describes and leave the alpha at 1 |
| Preview.PreviewCanvas.WriteWatermark | src/tools/Preview.jsx:82-88 | a non-blank text is written and the alpha restored to 1; a blank one leaves the alpha alone |
| Preview.PreviewCanvas.ImageLoaded | src/tools/Preview.jsx:91-100 | the decoded picture is kept and, with a canvas, drawn |
| Preview.PreviewCanvas.SetText | src/tools/Preview.jsx:150 | the text box sets the watermark text |
| Preview.PreviewCanvas.SetFontSize | src/tools/Preview.jsx:156-160 | the size slider, 12 to 48, sets the font size |
| Preview.PreviewCanvas.SetOpacity | src/tools/Preview.jsx:167-172 | the opacity slider, 0.2 to 1, sets the opacity |
| Preview.PreviewCanvas.StartDrag | src/tools/Preview.jsx:107-111 | dragging starts only when the text is non-empty (blank but non-empty text also starts it) |
| Preview.PreviewCanvas.EndDrag | src/tools/Preview.jsx:113 | dragging stops |
| Preview.PreviewCanvas.MoveDrag | src/tools/Preview.jsx:115-132 | while dragging, the mark moves to the cursor minus the canvas box origin; otherwise it stays |
| CropTool.EncodingOfIff | src/tools/CropTool.jsx:84-87 | the download is JPEG iff the format is "jpg", then at the chosen quality; anything else is PNG |
| CropTool.ExportCanvasExact | src/tools/CropTool.jsx:34-80 | the export canvas is exactly size.width × size.height; "fit" keeps the picture inside, other modes cover it; the picture keeps its proportions, is centred and flush on one axis; a backdrop appears only in "fit" mode and the blurred one covers the canvas |
| CropTool.ExportNameTagged | src/tools/CropTool.jsx:83 | a preset exported at its own size downloads as a name ending in `${width}x${height}.${format}` |
| CropTool.PreviewProportionalIff | src/tools/Preview.jsx:32-39 | the preview canvas has the export canvas's proportions iff the preset's ratio is its width over its height |
| CropTool.PreviewMatchesExport | src/tools/Preview.jsx:26-80 | for a preset whose ratio is exact, the preview canvas, picture and backdrop are the export's scaled by one k > 0 |
| CropTool.ExportImageScales | src/tools/CropTool.jsx:69-80 | the export picture on a canvas k times the size is scaled by k |
| CropTool.ExportBackdropScales | src/tools/CropTool.jsx:43-67 | the export backdrop on a canvas k times the size is scaled by k |
| CropTool.FacebookPreviewAsWritten | src/data/platformPresets.js:156-165 | the Facebook post as written previews at proportions other than its 1200 × 630 export |
| CropTool.FacebookPreviewCorrected | src/data/platformPresets.js:156-165 | with ratio 1200/630 the preview has the export's proportions |
| CropTool.CropEditor.constructor | src/tools/CropTool.jsx:10-20 | "fill", "black", no ratio, no preset, panel closed, "snapsizes", "png", 0.92 |
| CropTool.CropEditor.ApplyPreset | src/tools/CropTool.jsx:22-29 | no preset changes nothing; a preset sets the active preset, fit mode, background, ratio and file name from itself, and nothing else |
| CropTool.CropEditor.OpenExport | src/tools/CropTool.jsx:115 | the export panel opens |
| CropTool.CropEditor.CloseExport | src/tools/CropTool.jsx:121 | the export panel closes |
| CropTool.CropEditor.SetFileName | src/components/ExportPanel.jsx:75 | the file name box sets the file name |
| CropTool.CropEditor.SetFormat | src/components/ExportPanel.jsx:87-95 | the radio buttons set "png" or "jpg" |
| CropTool.CropEditor.SetQuality | src/components/ExportPanel.jsx:108-112 | the slider sets a quality in 0.85..1 |
| CropTool.CropEditor.HandleExport | src/tools/CropTool.jsx:31-92 | without a picture or a size nothing happens; otherwise the download is `${fileName}.${format}` with the encoding of the format and the canvas ExportCanvasExact describes, and the panel closes |
| ImageCompressorTool.Pow1024Grows | src/pages/ImageCompressorTool.jsx:44-47 | powers of 1024 grow with the exponent |
| ImageCompressorTool.UnitIndexBounds | src/pages/ImageCompressorTool.jsx:46 | the unit index i satisfies 1024^i ≤ bytes < 1024^(i+1) |
| ImageCompressorTool.UnitIndexIsLargest | src/pages/ImageCompressorTool.jsx:46 | i is the largest exponent with 1024^i ≤ bytes |
| ImageCompressorTool.UnitUndefinedFromTebibyte | src/pages/ImageCompressorTool.jsx:45-47 | from 1024^4 bytes on the unit is `sizes[4]`, which reads "undefined" |
| ImageCompressorTool.HundredthsBounds | src/pages/ImageCompressorTool.jsx:47 | the number shown is bytes / 1024^i to the nearest hundredth and lies in 1..1024, 1024 included |
| ImageCompressorTool.JustUnderOneMebibyte | src/pages/ImageCompressorTool.jsx:46-47 | 1048575 bytes show as "1024 KB" |
| ImageCompressorTool.DecimalRoundTrip | src/pages/ImageCompressorTool.jsx:47 | the printed number reads back as exactly the rounded count of hundredths |
| ImageCompressorTool.DecimalCanonical | src/pages/ImageCompressorTool.jsx:47 | `parseFloat` prints a point iff the value is not whole, and never a trailing zero |
| ImageCompressorTool.FormatSizeMeaning | src/pages/ImageCompressorTool.jsx:42-48 | 0 bytes show "0 B"; otherwise the number, a space and the unit of the largest power of 1024 not above the count, the number reading back as the rounded quotient, 1..1024 |
| ImageCompressorTool.EncoderQuality | src/pages/ImageCompressorTool.jsx:35 | the slider value divided by 100: in 0.1..1 for 10..100, and 100 times it gives the slider value back |
| ImageCompressorTool.Requests | src/pages/ImageCompressorTool.jsx:91-97 | one compression per "image/" file, in order, at quality / 100 |
| ImageCompressorTool.WithFiles | src/pages/ImageCompressorTool.jsx:91-101 | the old list is kept as a prefix and exactly one entry per image file is appended, the k-th for the k-th image file of the selection, with the file's name and size and the blob's id |
| ImageCompressorTool.WithFilesInSelectionOrder | src/pages/ImageCompressorTool.jsx:91-101 | the appended entries hold the selection's image files at strictly increasing positions, and every image file of the selection is among them |
| ImageCompressorTool.WithFilesAllOrNone | src/pages/ImageCompressorTool.jsx:93-99 | all image files are appended in order; no image file means no change |
| ImageCompressorTool.WithFilesKeepsUnique | src/pages/ImageCompressorTool.jsx:91-101 | with fresh ids, adding keeps ids unique |
| ImageCompressorTool.RemovedDeletesOne | src/pages/ImageCompressorTool.jsx:103-109 | removing an entry's id deletes exactly it and keeps the others in order |
| ImageCompressorTool.RemovedUnknown | src/pages/ImageCompressorTool.jsx:107 | removing an unknown id changes nothing |
| ImageCompressorTool.RemovedKeepsUnique | src/pages/ImageCompressorTool.jsx:103-109 | removal keeps ids unique |
| ImageCompressorTool.DownloadNameRecovers | src/pages/ImageCompressorTool.jsx:114 | the download name is "min-" followed by the original name, which can be read back |
| ImageCompressorTool.Compressor.constructor | src/pages/ImageCompressorTool.jsx:51-54 | no pictures, quality 75, idle |
| ImageCompressorTool.Compressor.HandleFiles | src/pages/ImageCompressorTool.jsx:7-101 | one request per image file at the current quality; when every compression settles the results are appended in selection order, ids stay unique and the page is idle again; when one never settles (no decode, no blob) nothing is appended and the page stays busy |
| ImageCompressorTool.Compressor.RemoveImage | src/pages/ImageCompressorTool.jsx:103-109 | the list loses the entry with the id |
| ImageCompressorTool.Compressor.SetQuality | src/pages/ImageCompressorTool.jsx:168-175 | the slider sets a quality in 10..100 |
| ImageCompressorTool.Compressor.DownloadAll | src/pages/ImageCompressorTool.jsx:118-120 | every entry is downloaded once, in list order, as "min-" + its name |

## Left out

- **Pixel-level output.** Canvas drawing, blur and brightness filters, image smoothing, `toBlob`/`toDataURL` encoding, `Image` decoding, `FileReader`, `JSZip.generateAsync`, jsPDF's `addImage` rendering (including its rotation argument), and file-saver or anchor downloads are opaque. A decoded image is its intrinsic size. An encoded canvas is described by what was drawn on it and by the encoder settings.
- **Decode and encode outcomes.** Success or failure is a parameter: an `Option` of dimensions per image in bulk export, a `resolves` oracle in the bulk resizer, and an `Option` of a blob per image file in the compressor, where None is a compression that never settles. The `generatePdf` rejection path, which the PDF page only logs, is not modelled.
- **IEEE-754 arithmetic.** Geometry is over exact `real`.
  - `Math.round` and `toFixed(2)` are exact half-up rounding.
  - `Math.floor(Math.log(bytes) / Math.log(1024))` is the exact integer logarithm, so float error at exact powers of 1024 is not captured.
  - `0.264583` is taken as an exact decimal.
- **Async and lifecycle code.** This covers Promises, the `setTimeout` delays, the debounced re-compression effect of the compressor (`src/pages/ImageCompressorTool.jsx:67-89`), `useEffect` redraw triggers, and `URL.createObjectURL`/`revokeObjectURL`.
- **Random ids.** `crypto.randomUUID` and `Math.random().toString(36)` become parameters, together with a precondition that they are fresh and pairwise different. The source does not guarantee this.
- **Clock-dependent output.** The date-stamped PDF file name is not modelled.
- **Browser inputs as parameters.** `window.innerHeight`, `window.confirm`, the canvas box of a mouse or touch event, and whether the canvas element is mounted are all parameters.
- **jsPDF page sizes.** They are assumed to equal `PAGE_SIZES`, with landscape exchanging the two sides.
- **Pure UI.**
  - `ExportPanel` and `Controls` are UI (accordion and modal state), and so are the format and quality selects of the resizer and the social tool.
  - As written, the crop tool throws as soon as a picture is set. `CropTool` renders `Controls` without its `presets` and `ratios` props (src/tools/CropTool.jsx:98-105), and `Controls` calls `presets.map` and `ratios.map` (src/tools/Controls.jsx:21, 34), which throw a TypeError on undefined. Only the empty render without a picture (src/tools/CropTool.jsx:94) succeeds, so `applyPreset`, the preview and the export cannot be reached as written. The model of the crop tool describes those handlers as they run once `Controls` is given the props. The render itself is not modelled, because the list `Controls` should receive is not evident: it reads flat `key`/`label` entries, while PLATFORM_PRESETS is grouped by platform.
  - The string-valued fit modes and backgrounds of the crop tool are enumerations.
  - Colours are RGB triples.
- PdfEngine.GeneratePdf: requires margins smaller than half the page on both axes. The source computes with any margin, but the only caller's slider keeps margins at 0..50 mm, which `ImageToPdfTool.SliderMarginValid` shows is enough.
- ImageToPdfTool.ImageToPdf.HandleDragEnd: requires that both ids are in the list, which dnd-kit guarantees. The `findIndex` result −1 is therefore never passed to `arrayMove`.
- BulkPhotoResizer.Resizer.HandleFileUpload: requires fresh, pairwise different ids from `crypto.randomUUID`. The same holds for `ImageToPdfTool.ImageToPdf.HandleFiles` and `ImageCompressorTool.Compressor.HandleFiles`.
- Preview.RenderSize: is stated for a positive ratio and a positive window height only. Every preset ratio is positive.
- Preview.PreviewCanvas.StartDrag: like the source, it tests `!text` and not `text.trim()`, so a blank watermark can be dragged although it is not drawn.
- CropTool.PreviewMatchesExport: is stated only for presets whose ratio is their width over their height. For the Facebook post as written, `CropTool.FacebookPreviewAsWritten` shows that the preview and the export differ.
- BulkExport.ArchiveComplete: counts file entries only. `zip.folder("snapsizes-export")` (src/utils/bulkExport.js:9) also gives the saved ZIP a directory entry "snapsizes-export/", which the archive model does not record.
- ImageCompressorTool.HundredthsBounds: uses exact rounding. The `toFixed(2)` of an IEEE double can round a tie the other way.

## Findings

| source | as written | input that shows it | evidently intended | confidence | as-written member | corrected member |
|---|---|---|---|---|---|---|
| src/data/platformPresets.js:161 | the Facebook post has `ratio: 1.91` for a 1200 × 630 canvas | the preset's data as written, applied once the crop tool renders (as written its `Controls` throws first; see "## Left out"): the preview uses 1.91, but the export is 1200/630 ≈ 1.90476, so the preview is not the export in miniature | `ratio: 1200 / 630`, as every other entry's ratio is width / height | not executed | PlatformPresets.FacebookRatioAsWritten | PlatformPresets.FbPostChecked |
| src/tools/Preview.jsx:32-39 | the preview canvas takes the preset's `ratio`, not its width and height | the Facebook post as written: preview width × 630 ≠ preview height × 1200 (latent while the crop tool's `Controls` throws) | the preview in the export's proportions | not executed | CropTool.FacebookPreviewAsWritten | CropTool.FacebookPreviewCorrected |
