# snapshot-assert, modelled in Dafny

snapshot-assert is a Go library for visual snapshot tests. On the first run of
a test it stores the image under test as `root/name.png`. On later runs it
compares the image with that snapshot pixel by pixel. When the two differ, it
writes two artifacts to a temporary directory and returns a typed error:

- a three-panel composite (snapshot | diff mask | actual);
- the actual image.

The error is `ErrBoundsMismatch` when the sizes differ and `ErrPixelsDiffer`
with the mismatch count otherwise. The `Snapshots` instance remembers every
artifact it wrote so that `Cleanup` can remove them.

The model has ten modules, one per file:

- `Raster` (raster.dfy): colours, origin-anchored images and the two
  `draw.Draw` shapes the library uses, both written as loops over an
  `array2<Color>` canvas.
- `Images` (image.dfy): `generateDiff` and `generateCompositeImage` as
  methods that fill a fresh canvas, as the Go code does. Each is proved
  equal to a pixel-by-pixel definition, `DiffImage` or `CompositeImage`. The
  mismatch counter is proved equal to `DiffCount`.
- `ImageLaws` (image_laws.dfy): what those definitions promise. This covers
  symmetry, identity, when the count is zero, the count being exactly the
  number of highlighted pixels, every worked case of the package's tests, and
  the composite giving each panel back.
- `Store` (store.dfy): the operating system as a class `FileStore`. It holds
  a map from path to file contents, a set of directories and the state of the
  random source `os.CreateTemp` draws from. Fixed sets of refused paths make
  every failure a function of the store. `os.CreateTemp` keeps Go's name
  search: no path separator in the pattern, a split at the last `*`, a 32-bit
  random number in decimal, and up to 10000 tries.
- `Decimal` (decimal.dfy): `%d` and its inverse.
- `Errors` (errors.dfy): `DiffFiles`, the two verdict errors, and the wrapped
  I/O errors of fs.go with their `Error()` texts.
- `SnapshotFiles` (fs.dfy): `ensureRootExists`, `loadOrCreateSnapshot` and the
  artifact writers, as methods over the store. Each writer's outcome is given
  by a function of the store before the call (`LoadOutcome`,
  `WriteTempOutcome`).
- `Snapshot` (assert.dfy): options and `New`, the class `Snapshots` with its
  `tempFiles` list, `TestWithName`, `FailWithName` and `Cleanup`. The outcome
  of the artifact step is the function `ArtifactsOutcome`.
- `Scenarios` (scenarios.dfy): whole runs on a fresh store as the package's
  tests drive them, with the exact file names and error values.
- `Wrappers` (wrappers.dfy): `Option` and `Result`.

## Model

| member | source | states |
|---|---|---|
| Raster.Bounds | assert.go:116-121 | the bounds of every image start at the origin, so comparing bounds compares sizes |
| Raster.Solid | assert_test.go:17-21 | a solid test image has the given size and that colour at every pixel |
| Raster.Paint | image_test.go:114-120 | repainting a rectangle changes exactly its pixels (clipped to the image) to the colour and keeps the rest |
| Raster.FillRect | image.go:38-39 | the uniform `draw.Draw` sets every canvas pixel inside the clipped rectangle to the colour and leaves every other pixel as it was |
| Raster.DrawImage | image.go:51-83 | drawing an image onto a blank region puts source pixel (x-x0, y-y0) at every covered (x, y) and changes nothing else |
| Decimal.Itoa | errors.go:36-38 | `%d` is non-empty and starts with '-' exactly for negatives |
| Decimal.ItoaRoundTrip | errors.go:36-38 | `%d` is a well-formed decimal whose parse is the number again |
| Decimal.ItoaInjective | errors.go:36-38 | different numbers print differently |
| Store.Decode | fs.go:44-47 | decoding succeeds exactly on a PNG file whose sides are both 1 up to 2^31 - 1, and gives back the stored image. A PNG with any other side is refused as a non-positive dimension; any other file is an unexpected EOF |
| Store.Join | fs.go:24 | `filepath.Join` of a directory and a file name: the name alone under an empty directory, otherwise the two joined by one '/', without the lexical clean-up. What that gives the snapshot paths is stated in `SnapshotFiles.SnapshotPathInjective` and `SnapshotFiles.SnapshotPathNotRoot` |
| Store.LastIndexOf | fs.go:71 | returns the index of the last occurrence of the character, or -1 exactly when the character is absent |
| Store.PrefixAndSuffix | fs.go:71 | a pattern with a separator is refused. Otherwise it is split around its last '*' (the two parts and the '*' give the pattern back), or it is all prefix when there is no '*' |
| Store.SplitAtStar | fs.go:71 | a pattern with one '*' whose suffix has none, and no separator, is split at that '*' |
| Store.JoinPath | fs.go:71 | the joined path starts with the directory and ends with the name |
| Store.TempName | fs.go:71 | the name tried is longer than prefix and suffix together (the random part is never empty) |
| Store.TempSearch | fs.go:71 | a name found is not taken, not refused, not empty, and made from prefix, digits and suffix. The only failures are "exists" after 10000 taken names and "permission denied". The random source always advances |
| Store.CreateTempOutcome | fs.go:71 | a created temp file's name is fresh, writable, non-empty and made from the template in the temp directory. The errors are a bad pattern, exhaustion or refusal |
| Store.EncodeFault | fs.go:34 | `png.Encode` succeeds exactly on an image with both sides in 1 .. 2^32-1 written to a file whose writes do not fail |
| Store.FileStore.Open | fs.go:26 | opening fails exactly on a missing path (not-exist) or an unreadable one (permission). An open file yields its stored contents |
| Store.FileStore.MkdirAll | fs.go:15 | adds the directory unless creating it is refused, and then reports permission denied |
| Store.FileStore.Create | fs.go:29 | an empty file replaces whatever was at the path, unless the path is a directory or refused |
| Store.FileStore.Encode | fs.go:34 | the file holds the image exactly when `EncodeFault` reports nothing |
| Store.FileStore.CreateTemp | fs.go:71 | the name, the error and the new random state are those of `CreateTempOutcome`. The created file is empty and nothing else changes |
| Store.FileStore.TryNames | fs.go:71 | the retry loop's result and random state are those of `TempSearch` |
| Store.FileStore.Remove | assert.go:20 | removes exactly an existing, removable file, and otherwise reports not-exist or permission denied |
| Images.DiffPixel | image.go:16-39 | a mask pixel is the highlight outside the intersection and where the two images differ inside it, and blank elsewhere; `Images.DiffImagePixels` states it of the mask |
| Images.DiffImage | image.go:10-16 | the mask has the union size: the larger width and the larger height |
| Images.RowMismatches | image.go:19-24 | a row never has more mismatches than the pixels compared |
| Images.Mismatches | image.go:18-25 | the number of differing pixels in the first m rows and n columns, row by row as the two loops count them; `Images.MismatchesBound`, `ImageLaws.MismatchesZero` and `ImageLaws.MismatchesSymmetric` state its properties |
| Images.MismatchesBound | image.go:18-25 | the intersection never has more mismatches than it has pixels |
| Images.DiffCount | image.go:27-36 | the count generateDiff returns: the intersection's mismatches, then the extra rows at full width, then the extra columns over the intersection's rows. `Images.DiffCountArea`, `ImageLaws.ZeroCountIff`, `ImageLaws.DiffCountBound` and `ImageLaws.BoundsChangeCounts` state what it means |
| Images.DiffCountArea | image.go:27-36 | the count is the intersection's mismatches plus the union's area minus the intersection's area, so the corner is counted once |
| Images.ExtraCount | image.go:27-36 | the two guarded additions (extra rows at full width, extra columns over the intersection's rows) add up to `DiffCount` |
| Images.DiffImagePixels | image.go:16-39 | inside the intersection a mask pixel is the highlight exactly where the images differ, and blank otherwise. Every pixel outside the intersection is the highlight |
| Images.ScanRow | image.go:19-24 | the inner loop paints exactly the differing pixels of row y and returns their number |
| Images.ScanIntersection | image.go:18-25 | the nested loops leave exactly the differing pixels of the intersection painted and return their number |
| Images.HighlightOutside | image.go:38-39 | after the two fills the canvas holds the mask pixel by pixel |
| Images.CountOutside | image.go:27-36 | starting from the intersection's mismatches, the two guarded additions give `DiffCount` |
| Images.MaskCanvas | image.go:16-41 | a canvas holding the mask pixel by pixel reads back as `DiffImage` |
| Images.GenerateDiff | image.go:9-42 | generateDiff returns `DiffImage`, of the union size, with the pixel rules inside and outside the intersection and the count `DiffCount` |
| Images.CompositePixel | image.go:51-83 | a composite pixel comes from the snapshot, the diff or the actual image by column, each read from its own origin, and is blank where no panel reaches; `Images.CompositePlacement` states it of the composite |
| Images.CompositeImage | image.go:46-49 | the composite is as wide as the three images together and as tall as the diff |
| Images.CompositePlacement | image.go:51-83 | the composite shows the snapshot at x < eW, the diff at eW <= x < eW+dW, and the actual image after that, each from its own origin. Rows below a shorter panel are blank |
| Images.DrawPanels | image.go:51-83 | the three `draw.Draw` calls leave the composite pixel by pixel on the blank canvas |
| Images.GenerateComposite | image.go:45-86 | generateCompositeImage returns `CompositeImage`, with its size and the placement of each panel |
| ImageLaws.RowMismatchesZero | image.go:19-24 | a row's count is zero exactly when no pixel of it differs |
| ImageLaws.MismatchesZero | image.go:18-25 | the loops count zero exactly when no compared pixel differs |
| ImageLaws.RowMismatchesSymmetric | image.go:20 | swapping the images keeps a row's count |
| ImageLaws.MismatchesSymmetric | image.go:18-25 | swapping the images keeps the intersection's count |
| ImageLaws.DiffSymmetric | image.go:9-42 | swapping the images gives the same mask and the same count |
| ImageLaws.MaskSymmetric | image.go:16-39 | swapping the images gives the same mask |
| ImageLaws.DiffIdentity | image_test.go:75-90 | an image compared with itself gives count 0 and an all-blank mask of its size |
| ImageLaws.MaskRowPrefix | image.go:19-24 | along an intersection row, the highlighted pixels up to n are the mismatches up to n |
| ImageLaws.MaskRowCount | image.go:16-39 | a mask row through the intersection has its mismatches plus the extra columns highlighted. A row below it is highlighted throughout |
| ImageLaws.MaskRowInside | image.go:16-39 | a mask row through the intersection has its mismatches plus the columns past the intersection highlighted |
| ImageLaws.MaskRowOutside | image.go:39 | a mask row below the intersection is highlighted throughout |
| ImageLaws.MaskRowsPrefix | image.go:27-39 | the highlighted pixels of the first m mask rows are the running count of the first m rows |
| ImageLaws.MaskRowsTargets | image.go:16-39 | each mask row holds its expected number of highlighted pixels |
| ImageLaws.MaskRowsTotal | image.go:27-39 | rows holding their expected numbers of highlighted pixels add up to `DiffCount` |
| ImageLaws.HighlightedPixels | image.go:27-39 | with a non-blank highlight, the count returned is exactly the number of highlighted pixels of the mask |
| ImageLaws.DiffCountBound | image.go:27-36 | the count never exceeds the union's area |
| ImageLaws.ZeroCountIff | image.go:9-42 | the count is zero exactly when the images are equal or the union has no area |
| ImageLaws.EqualBoundsCount | image.go:27-36 | with equal bounds the count is the number of differing pixels, and the intersection is the whole image |
| ImageLaws.ZeroAreaBoundsChange | image.go:27-36 | a 2x0 and a 3x0 image have different bounds and count 0 |
| ImageLaws.BoundsChangeCounts | image.go:27-36 | a change of bounds from an image with area always gives a nonzero count |
| ImageLaws.SolidRowMismatches | image.go:19-24 | two solid images differ along a shared row everywhere or nowhere |
| ImageLaws.SolidMismatches | image.go:18-25 | two solid images differ on every shared pixel or on none |
| ImageLaws.SolidMask | image.go:16-39 | the mask of two solid images is blank on the shared area when the colours agree, and highlighted everywhere else |
| ImageLaws.ExampleSolidColors | assert_test.go:119-125 | 10x10 blue against 10x10 red differs in all 100 pixels |
| ImageLaws.ExampleExpectedSmallerCount | image_test.go:15-32 | a 2x2 image against a 3x3 one counts 5 |
| ImageLaws.ExampleExpectedSmallerMask | image_test.go:19-38 | that mask highlights exactly the right column and the bottom row |
| ImageLaws.ExampleExpectedLargerCount | image_test.go:41-66 | a 4x4 image against a 2x2 one counts 12 |
| ImageLaws.ExampleExpectedLargerMask | image_test.go:45-72 | that mask highlights everything but the top-left 2x2 corner |
| ImageLaws.PatchRowMismatches | image_test.go:114-120 | a row of a repainted image differs in exactly the repainted part of the row |
| ImageLaws.BandMismatches | image.go:18-25 | when exactly a band of rows differs, k pixels each, the count is k per band row |
| ImageLaws.PatchRows | image_test.go:114-120 | each repainted row differs in x1-x0 pixels and every other row in none |
| ImageLaws.PatchCount | image_test.go:92-124 | repainting a rectangle in a colour the image lacks gives a count equal to the rectangle's area |
| ImageLaws.PatchMask | image_test.go:96-130 | the mask then highlights exactly the rectangle |
| ImageLaws.ExamplePartialDiffCount | image_test.go:92-124 | the 2x2 patch at (3,3) of a 10x10 image counts 4 |
| ImageLaws.ExamplePartialDiffMask | image_test.go:96-130 | that mask highlights exactly the four changed pixels |
| ImageLaws.PanelCrop | image.go:51-83 | a panel drawn at an x-offset is cut back out by cropping there |
| ImageLaws.DiffPanel | image.go:59-70 | the composite shows the whole diff at x-offset eW |
| ImageLaws.CompositeShowsDiff | image.go:59-70 | cropping the middle panel gives the diff back whole |
| ImageLaws.CompositeShowsExpected | image.go:51-57 | cropping the left panel gives the snapshot's top rows, as many as the diff has |
| ImageLaws.CompositeShowsActual | image.go:72-83 | cropping the right panel gives the actual image's top rows, as many as the diff has |
| ImageLaws.ArtifactCompositeComplete | fs.go:54-60 | the composite written for a comparison loses nothing: it is as tall as the taller image, and the snapshot, the mask and the actual image each crop back out exactly |
| Errors.DiffFiles.CompositePath | errors.go:13-15 | the composite's path, "" when none was written; `Errors.MessagesOmitArtifacts` states that it returns the stored field of either verdict |
| Errors.DiffFiles.ActualPath | errors.go:17-19 | the actual image's path, "" when none was written; `Errors.MessagesOmitArtifacts` states that it returns the stored field of either verdict |
| Errors.PointString | errors.go:28 | `image.Point.String()`: "(x,y)" with both numbers in `%d`; `Errors.RectTen` and `Errors.RectTwenty` give examples |
| Errors.RectString | errors.go:28 | `image.Rectangle.String()`, which `%v` prints: the two corners joined by "-" |
| Errors.BoundsMessage | errors.go:27-29 | the text of `ErrBoundsMismatch`; `Errors.VerdictMessagesDistinct` and `Errors.BoundsMessageExample` state what it is |
| Errors.PixelsMessage | errors.go:36-38 | the text of `ErrPixelsDiffer`; `Errors.PixelsMessageRoundTrip` and `Errors.PixelsMessageInjective` state that the count can be read back and that different counts give different texts |
| Errors.Message | errors.go:27-38 | `Error()` of each error: the two verdict texts, and the wrapped texts of fs.go:31, 35, 39, 46, 73 and 77 with the path in `%q` and the cause after ": " |
| Errors.Quote | fs.go:31 | `%q` output is wrapped in double quotes and no shorter than the text plus two |
| Errors.Escape | fs.go:31 | escaping never shortens the text |
| Errors.PixelsMessageRoundTrip | errors.go:36-38 | the count can be read back out of the pixel message |
| Errors.PixelsMessageInjective | errors.go:36-38 | pixel messages with different counts differ |
| Errors.VerdictMessagesDistinct | errors.go:27-38 | a bounds message never equals a pixel message |
| Errors.VerdictTextsDistinct | errors.go:28 | the two verdict texts differ whatever rectangles or digits they hold |
| Errors.MessagesOmitArtifacts | errors.go:8-38 | the artifact paths do not change a verdict's text. `CompositePath()` and `ActualPath()` return the stored fields of either verdict |
| Errors.RectTen | errors.go:28 | `%v` of the 10x10 rectangle is "(0,0)-(10,10)" |
| Errors.RectTwenty | errors.go:28 | `%v` of the 20x20 rectangle is "(0,0)-(20,20)" |
| Errors.BoundsMessageExample | errors.go:27-29 | the exact text for a 10x10 snapshot against a 20x20 image |
| Errors.PixelsMessageExample | errors.go:36-38 | the exact text for 100 differing pixels |
| SnapshotFiles.SnapshotPath | fs.go:24 | the snapshot of `name` is the file `name.png` joined under the root; `SnapshotFiles.SnapshotPathInjective` and `SnapshotFiles.SnapshotPathNotRoot` state its properties |
| SnapshotFiles.CompositeTemplate | fs.go:57 | the composite's pattern `name-diff-*.png`; `SnapshotFiles.TemplatesSplit` states how `os.CreateTemp` splits it |
| SnapshotFiles.ActualTemplate | fs.go:65 | the actual image's pattern `name-actual-*.png`; `SnapshotFiles.TemplatesSplit` states how `os.CreateTemp` splits it |
| SnapshotFiles.TemplatesSplit | fs.go:57-71 | for a name without a separator, both patterns are accepted and split into the name with its role before the random part and ".png" after it |
| SnapshotFiles.SnapshotPathInjective | fs.go:24 | different names without a path separator give different snapshot paths under one root |
| SnapshotFiles.SnapshotPathNotRoot | fs.go:24 | a snapshot path is never the root directory itself |
| SnapshotFiles.EnsureRootExists | fs.go:13-19 | returns true exactly when nothing was at the root. It then adds the root unless that is refused (the failure is ignored). Files and the random source are untouched |
| SnapshotFiles.PutTaken | fs.go:70-81 | writing a file adds its name to the names in use |
| SnapshotFiles.LoadOutcome | fs.go:23-50 | the result of loadOrCreateSnapshot for what opening the path gave: a decoded snapshot, a creation, or an error wrapped with the path. `SnapshotFiles.LoadOutcomeCases` states the cases |
| SnapshotFiles.LoadWrite | fs.go:28-37 | the file left at the path: only a missing, writable path is written, holding the image when the encoder succeeds and unreadable bytes when it fails; `SnapshotFiles.LoadOutcomeCases` and `SnapshotFiles.CreateThenLoad` state it |
| SnapshotFiles.LoadOutcomeCases | fs.go:23-50 | "created" exactly when nothing was there and `actual` is now stored. "Found" exactly when a PNG with both sides 1 up to 2^31 - 1 was there. Only a missing file is written. Every error names the path, and it is a create error exactly when the file was missing |
| SnapshotFiles.CreateThenLoad | fs.go:26-49 | a snapshot just created is found, holding `actual`, by the next load, unless a side of `actual` is 2^31 or more: the encoder writes such an image but the decoder refuses it |
| SnapshotFiles.FoundHasArea | fs.go:44-49 | a loaded snapshot always has area, so comparing it with an image of other bounds always gives a nonzero count |
| SnapshotFiles.LoadOrCreateSnapshot | fs.go:23-50 | the result is `LoadOutcome` of what opening the path gave. The store changes only at the path, and only per `LoadWrite`. An encode failure leaves the empty file created |
| SnapshotFiles.WriteTempOutcome | fs.go:70-81 | the path is "" exactly when no file was made, and then there is an error. A made file has a fresh templated name. The write succeeds exactly when the file holds the image |
| SnapshotFiles.WriteTempFile | fs.go:70-81 | path, error, files and random state are those of `WriteTempOutcome`. An encode failure returns the non-empty path with the error |
| SnapshotFiles.WriteComposite | fs.go:54-60 | writes `CompositeImage(diff, left, right)` under `name-diff-*.png`, per `WriteTempOutcome` |
| SnapshotFiles.WriteActual | fs.go:64-66 | writes the actual image under `name-actual-*.png`, per `WriteTempOutcome` |
| Snapshot.Apply | assert.go:24-42 | one functional option sets its own setting and no other |
| Snapshot.Configure | assert.go:52-54 | the options applied first to last; `Snapshot.LastOptionWins` and `Snapshot.UnsetKeepsDefault` state what that gives |
| Snapshot.LastOptionWins | assert.go:52-54 | the last option of a kind decides that setting |
| Snapshot.UnsetKeepsDefault | assert.go:44-57 | a setting no option names keeps its default |
| Snapshot.Verdict | assert.go:116-131 | differing bounds come first, then a nonzero count, then a pass; `Snapshot.VerdictMeaning` states what it means with the computed count |
| Snapshot.VerdictMeaning | assert.go:116-131 | with the computed count, the comparison passes exactly when the images are identical. Differing bounds always give BoundsMismatch with both rectangles. Equal bounds with other pixels give PixelsDiffer with a positive count |
| Snapshot.ArtifactsOutcome | assert.go:91-106 | the artifact step: the composite's write and, only when it succeeded, the actual image's with the composite's name taken. `Snapshot.ArtifactsShape`, `Snapshot.ArtifactsRegistered`, `Snapshot.ArtifactsStored` and `Snapshot.ArtifactsSucceed` state its properties |
| Snapshot.ArtifactsShape | assert.go:91-106 | the artifact step stops after a failed composite write, and otherwise writes the actual image with the composite's name taken |
| Snapshot.ArtifactsRegistered | assert.go:91-106 | at most two names are registered: non-empty, fresh, distinct, the composite's first, each from its template |
| Snapshot.ArtifactsStored | assert.go:91-106 | exactly the registered names are added to the files |
| Snapshot.ArtifactsSucceed | assert.go:91-111 | the step succeeds exactly when both files were written with the two images, and then reports both names. Its only error is the temp-file error |
| Snapshot.Snapshots.New | assert.go:44-57 | the defaults (".snapshots", "", opaque green) with the options applied first to last, and an empty artifact list |
| Snapshot.Snapshots.Register | assert.go:93-95 | appends a non-empty path to the artifact list and skips "" |
| Snapshot.Snapshots.SaveComposite | assert.go:92-98 | writes the composite per `WriteTempOutcome` and appends the name if a file was made |
| Snapshot.Snapshots.SaveActual | assert.go:100-106 | writes the actual image per `WriteTempOutcome` and appends the name if a file was made |
| Snapshot.Snapshots.WriteArtifacts | assert.go:91-114 | artifact list, files, random state and error are those of `ArtifactsOutcome`. On success it returns both names |
| Snapshot.Snapshots.Compare | assert.go:87-131 | a zero count writes nothing and returns the verdict. Otherwise the artifact step runs, and its error wins over the verdict, which carries the reported names |
| Snapshot.Snapshots.TestWithName | assert.go:71-132 | the root is ensured. A load error or a creation returns at once and leaves the artifact list alone. A found snapshot gives `Compare`'s outcome |
| Snapshot.Snapshots.FailWithNameAsWritten | assert.go:156-162 | as written: records the snapshot under the running test's name, or passes against it when it is the image, whatever `name` is. An image with a side of 0 or of 2^31 or more stored there fails to load instead |
| Snapshot.Snapshots.FailWithName | assert.go:156-162 | corrected: records the snapshot under `name`, or passes when the snapshot stored there is the image. An image with a side of 0 or of 2^31 or more stored there fails to load instead |
| Snapshot.Snapshots.Cleanup | assert.go:18-22 | removes every registered file that may be removed, ignores the other failures, and keeps the list |
| Scenarios.CreateThenPass | assert.go:78-85 | on a fresh store the first run creates the snapshot and passes, and the second with the same image passes too |
| Scenarios.CreateTempFirst | fs.go:71 | with nothing refused, the first name tried is taken when it is free |
| Scenarios.DiffNameFirst | fs.go:57 | the composite of "TestRed" is created as "/tmp/TestRed-diff-0.png" |
| Scenarios.ActualNameFirst | fs.go:65 | the actual image is then created as "/tmp/TestRed-actual-1.png" |
| Scenarios.NamesDistinct | assert.go:91-106 | the snapshot, its directory and the two artifacts have four different names |
| Scenarios.DiffWritten | fs.go:54-60 | the composite's write succeeds under its first name |
| Scenarios.ActualWritten | fs.go:64-66 | the actual image's write succeeds under its first name |
| Scenarios.RedArtifacts | assert.go:91-111 | both artifact writes succeed under the first names |
| Scenarios.RedArtifactsMeaning | assert.go:91-111 | two successful writes register, report and store both names |
| Scenarios.RedPlan | assert.go:71-111 | a 10x10 snapshot is found, and any image up to 20x20 gets both artifacts written under the first names |
| Scenarios.Compared | assert.go:71-132 | such a failing comparison returns the verdict with both names, registers both and stores both |
| Scenarios.DifferentColours | assert_test.go:119-136 | 10x10 red against 10x10 blue: PixelsDiffer of 100 with both paths. Two artifacts are written, and `Cleanup` leaves only the snapshot |
| Scenarios.GrownCount | image.go:27-36 | 20x20 blue against the 10x10 blue snapshot counts the 300 pixels outside the snapshot |
| Scenarios.BoundsChange | assert_test.go:108-116 | the same run with a 20x20 image gives BoundsMismatch of both rectangles with both paths, and `Cleanup` leaves only the snapshot |
| Scenarios.CleanedUp | assert_test.go:131-135 | `Cleanup` after a failing run removes both artifacts and keeps the snapshot |
| Scenarios.ArtifactsRemoved | assert_test.go:131-135 | removing the two artifact names leaves only the snapshot |
| Scenarios.FailIgnoresName | assert.go:159 | as written, FailWithName(t, "Custom", img) from test "TestFail" records ".snapshots/TestFail.png" and never ".snapshots/Custom.png" |
| Scenarios.FailUsesName | assert.go:156-162 | corrected, the same call records ".snapshots/Custom.png" |

## Left out

- The testing.TB handle (`Helper`, `Log`, `Logf`, `Error`, `Fatal`) is not modelled. It is reduced to the snapshot's name: `TestWithName` takes the name, and `FailWithName` returns the error that `t.Fatal` would receive.
- `Test` and `Assert` (assert.go:65-68, 135-138) pass `t.Name()` as the name: `Test` to `TestWithName`, `Assert` to `AssertWithName`. `AssertWithName` (assert.go:141-147) calls `TestWithName` with its `name` and reports a non-nil error through `t.Error`, which is not modelled. `Fail` (assert.go:150-153) calls `FailWithName` with `t.Name()`, and `FailWithName` is modelled. default.go only forwards to a package-level instance. None of these forwarders is modelled separately.
- Snapshot.Snapshots.FailWithNameAsWritten: states only the two cases that show which name is used (a missing snapshot is recorded, an identical one passes), not the whole outcome of `TestWithName`.
- Snapshot.Snapshots.FailWithName: states the same two cases for `name`, not the whole outcome of `TestWithName`.
- Snapshot.Snapshots.WriteArtifacts: states its `files` result only on success. On failure Go returns the error at once and never uses `diffFiles` (a model result of `NoFiles`).
- The PNG codec is not modelled. A file holds either an encoded image or bytes that do not decode. An encoded opaque image decodes to the same image when both its sides are below 2^31; the decoder reads the sides as signed 32-bit numbers and refuses the others as non-positive. An empty image is never encoded, because `png.Encode` refuses it. `png.Encode` fails only on its size check or on a failing write. The byte format is not modelled.
- Store.Decode: gives back the stored image itself, whatever its alpha. In Go, `png.Encode` writes an image with a translucent pixel as non-premultiplied RGBA, and `png.Decode` returns it as an `*image.NRGBA` whose pixels are `color.NRGBA`. At image.go:20 such a pixel never equals the actual image's `color.RGBA`, because interface values of different dynamic types are unequal. So in Go a snapshot with a translucent pixel fails against its own image, with the whole intersection counted. The model passes it. This carries over to `TestWithName`, `FailWithName`, `FailWithNameAsWritten` and the pass case of `Snapshot.VerdictMeaning`.
- `Errors.FaultText` gives one representative text per fault. A failing write inside `png.Encode` returns the writer's own error, not "short write". A file of bytes that are not a PNG gives "png: invalid format: not a PNG file"; only a truncated file gives "unexpected EOF". The model has one undecodable kind of file and prints "unexpected EOF" for it.
- A snapshot path that is a directory is treated like an undecodable file (unexpected EOF). Go reports the directory read error instead.
- SnapshotFiles.SnapshotPathNotRoot: holds only for the model's join, which does not clean the path. Go's `filepath.Join` cleans it, so a name such as "../x" under the root "a/x.png" gives back the root itself.
- SnapshotFiles.SnapshotPathInjective: is stated only for names without a separator. Once the join cleans the path, "x/../y" reaches the file of "y".
- `filepath.Join` is not modelled exactly. The model joins with one '/' and omits the lexical clean-up (no "." or ".." removal, no collapsing of duplicate separators).
- Directories are a flat set of paths. Parent directories, `MkdirAll` of intermediate directories and the permission of a parent are not modelled.
- Wrapped I/O errors are modelled without the `*PathError` operation and path that Go prints before the cause. `%q` is modelled only for printable text, escaping quotes and backslashes.
- The random source of `os.CreateTemp` is a counter advanced once per try, not a random number generator. Each try uses the counter modulo 2^32.
- `draw.Draw` with `draw.Over` is modelled as a plain copy. A drawn image always lands on blank pixels, so this is exact there. The two uniform fills of the mask overlap in the corner; for a translucent highlight colour Go blends the corner with what is already there. That blending is not modelled, and the highlight is treated as opaque.
- Go's `color.Color` interface equality across different concrete colour types is not modelled. Colours are RGBA values compared channel by channel.
- Images whose bounds do not start at (0, 0) are not modelled, because the diff indexes from 0.
- Concurrency is not modelled. Nothing in the library is synchronised.
- The fixture PNGs the tests compare against (assert_test.go:78) are not modelled.

Where the code and its documentation part ways, the model follows the code:

- The doc comment of `Test` (assert.go:59-64) says a non-test failure calls `t.Fatal`. The code returns the I/O error from `TestWithName`, which is what `TestWithName` states.
- One might expect `generateDiff` (image.go:9-42) always to count a change of bounds as nonzero. Between two images without area, taken on their own, it counts zero (`ImageLaws.ZeroAreaBoundsChange`). `TestWithName` never meets that case: a snapshot it loads always has area (`SnapshotFiles.FoundHasArea`).
- The verdict messages do not contain the artifact paths. They are reachable only through `CompositePath()` and `ActualPath()` (`Errors.MessagesOmitArtifacts`).
- A failed composite write returns before the actual image is written, and the composite's path stays registered (`Snapshot.ArtifactsShape`).

## Findings

| source | as written | input that shows it | evidently intended | confidence | as-written member | corrected member |
|---|---|---|---|---|---|---|
| assert.go:159 | `FailWithName` calls `s.Test(t, actual)`, which compares under `t.Name()`, so its `name` argument is ignored | `FailWithName(t, "Custom", img)` from test "TestFail" on an empty store records `.snapshots/TestFail.png` | compare under `name`, as `AssertWithName` does (assert.go:144) | high; not executed | Snapshot.Snapshots.FailWithNameAsWritten, Scenarios.FailIgnoresName | Snapshot.Snapshots.FailWithName, Scenarios.FailUsesName |
