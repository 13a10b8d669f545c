# CactusViewer directory and loading bookkeeping, in Dafny

CactusViewer is a single-window image viewer for Windows. This project models
the part of it that does not touch the GPU or the decoding libraries:

- **Arith**: `gcd` and `reduced_fraction`, which give the aspect ratio shown
  in the info panel.
- **Extension**: `check_valid_extention`, which sorts a file extension
  case-insensitively into the decoder that will open it.
- **CStrings**: the wide-string helpers `remove_char`, `string_equal`,
  `string_copy` and `string_append`. They work in place on NUL-terminated
  arrays.
- **Folder**: how `scan_folder` builds the file table. It splits the
  requested path into base and name, then walks the directory listing. It
  drops folders and unknown types. It aborts when the requested file itself
  is unknown. It then picks the current index by name. This module also
  holds the two reorderings:
  - `sort_folder` writes each file's position in the Explorer listing into
    `.index` and orders the table by that key.
  - `shuffle_folder` is Fisher-Yates, driven by a supplied stream of random
    numbers.
- **Ppm**: the binary P6 decoder of `load_ppm_pre`. It is a pure parser and
  an imperative 63-byte-block decoder, and the two are proved equal. This
  module also has the `save_PPM` writer, with the round trip from writing
  back to loading.
- **Histogram**: `calculate_histogram`.
- **Rotation**: the Rotate L/R crop-rectangle transforms and the EXIF
  Orientation mapping.
- **Thumbs**: the visit order of `thumbs_thread` around the current file,
  and the atlas cell each thumbnail lands in.
- **Alerts**: the alert box: pushing a message and its fade timer.
- **App**: the viewer state that the loaders, the folder threads and the main
  loop share.
  - The `load_*_pre` commit sections, `loader_thread`'s guard and dispatch,
    the folder sort, scan and shuffle steps, and the `init_step_2` handler
    are pure step functions over a `ViewerState` snapshot.
  - Each of them is also a method of class `Viewer` that updates the fields
    in place and is proved to match its step function.
  - The threads are flattened into calls. Each call reads
    `current_file_index` at the moment it commits, so a superseded load can
    still be expressed.
- **ViewerFacts**: what the step functions guarantee. This covers the commit
  rule, which row a failure marks, and that loads never touch other rows. It
  also covers the sticky PPM `loading` flag and idempotence of the init step.
- **MainLoop**: `wmain`'s part. This is the EXE folder derivation, the
  startup and drag-and-drop scans and the load request each one issues, and
  next/previous/reload navigation.

Decoder outputs, the directory listing, the Explorer window's listing and the
random numbers are parameters. The file system, the libraries and the window
are not modelled.

## Model

| member | source | states |
|---|---|---|
| `Alerts.Stored` | src/source.cpp:788-790 | the alert buffer keeps its 256 characters (what it then holds is stated by `Alerts.StoredMessage`) |
| `Alerts.Alert.Push` | src/source.cpp:788-793 | the buffer becomes the stored message, the timer 1, the kind the one given, and 310 frames are added to the forced loop count |
| `Alerts.Alert.Tick` | src/source.cpp:3482-3485 | the timer takes one frame step (a running timer counts up and returns to 0 at 300); kind and frame count stay |
| `Alerts.Alert.Clear` | src/source.cpp:1411 | the timer becomes 0; kind and frame count stay |
| `Alerts.CopyPrefix` | src/source.cpp:790 | the first n characters of the message are copied over the buffer and the rest of the buffer keeps its contents |
| `Alerts.NextTimerInRange` | src/source.cpp:3482-3485 | a timer in [0, 300) stays in [0, 300) after a frame |
| `Alerts.TimerCountsUp` | src/source.cpp:3482-3485 | k frames from a running timer t with t + k < 300 give t + k |
| `Alerts.AlertLifetime` | src/source.cpp:3482-3485 | a pushed alert (timer 1) is still showing after k < 299 frames and is back to 0 after 299 |
| `Alerts.IdleStaysIdle` | src/source.cpp:3482-3485 | any number of frames leaves a timer of 0 at 0 |
| `Alerts.StoredMessage` | src/source.cpp:788-790 | a message shorter than 256 characters reads back whole up to its terminator; a longer one fills the buffer with its first 256 characters and no terminator |
| `Arith.GcdLoop` | src/source.cpp:1240-1251 | the loop returns `Gcd` of its inputs |
| `Arith.GcdDivides` | src/source.cpp:1240-1251 | for inputs not both 0, the gcd is positive and divides both |
| `Arith.GcdGreatest` | src/source.cpp:1240-1251 | every common divisor of the inputs divides the gcd |
| `Arith.GcdScale` | src/source.cpp:1240-1251 | gcd(k·a, k·b) = k·gcd(a, b) for k > 0 |
| `Arith.ReducedFraction` | src/source.cpp:1253-1259 | 0×0, where the gcd is 0 and the division fails, is the one input with no result; for any other sides the two results times the gcd give back width and height, and the results are coprime |
| `Arith.ReducedFractionExamples` | src/source.cpp:1253-1259 | 1920×1080 reduces to 16:9, and n×n to 1:1 for n > 0 |
| `CStrings.StrLen` | src/source.cpp:1516 | the length is the index of the first NUL |
| `CStrings.ShiftLeft` | src/source.cpp:1520-1522 | the characters after i, the terminator at len included, move one place to the left; the rest of the buffer stays |
| `CStrings.RemoveChar` | src/source.cpp:1515-1527 | the string in the buffer afterwards is the old string with every occurrence of the character removed |
| `CStrings.StringEqual` | src/source.cpp:1554-1560 | the answer is true exactly when the two NUL-terminated strings are equal |
| `CStrings.CopyAt` | src/source.cpp:1562-1568 | the source string and its NUL are written at the offset, and every other position of the destination keeps its contents |
| `CStrings.StringCopy` | src/source.cpp:1562-1568 | the destination afterwards holds the source string |
| `CStrings.StringAppend` | src/source.cpp:1570-1573 | the destination afterwards holds its old string followed by the source string |
| `Extension.LoweredAt` | src/source.cpp:1431-1433 | the compared copy starts with '.' and holds every later character lowered (only 'A'..'Z' change) |
| `Extension.CheckValidExtension` | src/source.cpp:1428-1514 | the answer of the method is `Classify` of the extension |
| `Extension.ClassifyCaseInsensitive` | src/source.cpp:1431-1433 | two extensions of equal length whose characters after the first agree up to ASCII case get the same type |
| `Extension.ClassifyCharacterised` | src/source.cpp:1428-1514 | Gif, Webp and Ppm exactly for ".gif", ".webp" and ".ppm" after lowering, Misc exactly for the other listed codec extensions, Unknown for everything else; StbImage and WebpAnim never |
| `Extension.ClassifyAcceptedExamples` | src/source.cpp:1428-1514 | ".GIF" is Gif, "*WebP" is Webp (the first character is ignored), ".JPG" is Misc |
| `Extension.ClassifyRejectedExample` | src/source.cpp:1428-1514 | ".xyz" is Unknown |
| `Extension.ClassifyEmptyExample` | src/source.cpp:1428-1433 | an empty extension is Unknown |
| `Folder.FindSplit` | src/source.cpp:1878-1883 | the backward loop returns `SplitPoint` |
| `Folder.SplitCharacterised` | src/source.cpp:1878-1883 | either no separator follows index 0 and the split is at the end, or a separator precedes the split and none follows it |
| `Folder.LocateFileName` | src/source.cpp:1876-1907 | the file name is the last component of the path with U+2F22 removed, or the whole path when that ends in a separator or has no separator after its first character |
| `Folder.LocateFileJoin` | src/source.cpp:1876-1899 | folder part followed by file name gives back the path with U+2F22 removed, except that a bare file name is put in the working folder |
| `Folder.Collect` | src/source.cpp:1925-1962 | returns the first blocking entry, if any, and the rows of the entries before it, or of all entries when none blocks |
| `Folder.CollectUntil` | src/source.cpp:1927-1958 | the loop stops at the first blocking entry, holding the rows of the entries before it, or runs to the end when none blocks |
| `Folder.CollectOne` | src/source.cpp:1929-1956 | an entry stops the loop exactly when it blocks, and adds a row exactly when it is a file of known type |
| `Folder.FirstBlocker` | src/source.cpp:1931-1945 | the position returned blocks and no earlier entry does; None exactly when no entry blocks |
| `Folder.KeptMembers` | src/source.cpp:1927-1958 | a row is in the table exactly when it is the row of some file entry of known type |
| `Folder.KeptSource` | src/source.cpp:1927-1958 | every row of the table is the row of a file entry of known type |
| `Folder.KeptHas` | src/source.cpp:1927-1958 | every file entry of known type has its row in the table |
| `Folder.KeptRows` | src/source.cpp:1935-1954 | every row has a known type, no '/' in its path, and index -1 |
| `Folder.FirstMatch` | src/source.cpp:1975-1980 | returns the first row whose name is the name to open, or None |
| `Folder.FindIndex` | src/source.cpp:1598-1602 | returns the first position of the path in the listing, or None |
| `Folder.AssignIndices` | src/source.cpp:1597-1602 | each row gets the first listing position of its path as index; a row whose path is not listed is unchanged |
| `Folder.ReindexedSpec` | src/source.cpp:1597-1602 | reindexing changes only `.index`; a listed row gets a position holding its path; an unlisted row is unchanged |
| `Folder.ResolvedRows` | src/source.cpp:1597-1603 | starting from unresolved rows, a row has an index of 0 or more exactly when its path is listed, and then that listing slot holds its path |
| `Folder.SortByIndexSpec` | src/source.cpp:1588-1603 | the sorted rows are a permutation of the rows, non-decreasing by `.index` |
| `Folder.SortedFollowsListing` | src/source.cpp:1596-1604 | starting from unresolved rows, after reindexing and sorting the unlisted rows come first and the listed rows follow the listing's order |
| `Folder.SettleRows` | src/source.cpp:1702-1710 | the loop clears loading and failed on every row and returns the last row with the name to open |
| `Folder.SettledKeeps` | src/source.cpp:1702-1710 | clearing keeps the names and the order by index, and leaves no row loading or failed |
| `Folder.Shuffle` | src/source.cpp:3469-3477 | the loop gives `Shuffled`: position i, from the last down to 1, swapped with position `rolls[i] % (i + 1)` |
| `Folder.ShuffledPermutes` | src/source.cpp:3469-3477 | the shuffled table has the same length and the same rows with the same multiplicities |
| `Folder.ShuffleFromPermutes` | src/source.cpp:3471-3476 | every remaining run of the swap loop keeps the length and the multiset of rows |
| `Folder.SwapPermutes` | src/source.cpp:3473 | a swap keeps the multiset of rows |
| `Histogram.Histograms.CalculateAsWritten` | src/source.cpp:821-840 | with the setting off only `has_histo` is cleared; with it on, the bins hold the tallies of the first size/4 - 1 pixels, the max is the largest combined bin, and `has_histo` is set |
| `Histogram.Histograms.Calculate` | src/source.cpp:821-840 | the same with the tallies of all size/4 pixels |
| `Histogram.Histograms.Compute` | src/source.cpp:821-840 | the same with the tallies of the first bound/4 pixels |
| `Histogram.Histograms.CountPixels` | src/source.cpp:830-834 | from zeroed bins, the loop leaves the red, green, blue and combined bins holding the tallies of the first bound/4 pixels |
| `Histogram.Histograms.ClearAll` | src/source.cpp:825-828 | every bin of the four histograms is 0 |
| `Histogram.Histograms.AddPixel` | src/source.cpp:831-833 | the bins move from the tallies of i/4 pixels to the tallies of i/4 + 1 pixels |
| `Histogram.Clear` | src/source.cpp:825 | the array holds 256 zeros |
| `Histogram.Increment` | src/source.cpp:831 | bin v goes up by one and the others stay |
| `Histogram.MaxLoop` | src/source.cpp:835-837 | returns `MaxOf` of the bins |
| `Histogram.MaxOfBounds` | src/source.cpp:835-837 | `MaxOf` is at least every element and, for a non-empty sequence, is one of them |
| `Histogram.TallyCounts` | src/source.cpp:830-834 | bin v of a channel is the number of the counted pixels whose value in that channel is v |
| `Histogram.TotalIsSum` | src/source.cpp:830-834 | each combined bin is the sum of the red, green and blue bins |
| `Histogram.TallySum` | src/source.cpp:830-834 | the bins of a channel add up to the number of pixels counted |
| `Histogram.TotalSum` | src/source.cpp:830-834 | the combined bins add up to three times the number of pixels counted |
| `Histogram.EveryPixelCounted` | src/source.cpp:830-834 | with the bound of every pixel, each channel's bins add up to the pixel count and the combined bins to three times it |
| `Histogram.LastPixelSkipped` | src/source.cpp:830 | with the bound as written the channel bins add up to one pixel fewer; for [7, 7, 7, 255] red bin 7 stays 0 though the pixel's red value is 7 |
| `MainLoop.ExeFolderLength` | src/main.cpp:16-21 | the pointer loop yields the index of the last backslash before the terminator, -1 when there is none |
| `MainLoop.ExeFolderSpec` | src/main.cpp:16-21 | there is no folder exactly when the path has no backslash; otherwise the folder is the path up to its last backslash, and no backslash follows that one |
| `MainLoop.NextSpec` | src/main.cpp:76-85 | when asked (the key while not sorting, or the signal) and the index is below Count-1, the index goes up by one, loaded is cleared and one request is issued for the new index, carrying that row's path or, past the table, whatever the array holds there; otherwise only the signal is cleared; the table never changes |
| `MainLoop.NextKept` | src/main.cpp:76-85 | table and sorting flag are kept, at most one request for the index it ends on is added, only the next signal changes, a current row stays current, and an index at or past the end of the table never moves |
| `MainLoop.NextImage` | src/main.cpp:76-85 | the viewer's fields afterwards are `NextStep` of those before, for any index |
| `MainLoop.PrevSpec` | src/main.cpp:86-95 | when asked and the index is above 0, the index goes down by one, loaded is cleared and one request is issued for the new index, whether or not the table holds it; otherwise only the signal is cleared; the table never changes |
| `MainLoop.PrevKept` | src/main.cpp:86-95 | table and sorting flag are kept, at most one request for the index it ends on is added, only the prev signal changes, a current row stays current, and from an index more than one past the end, going back requests an index still past the table, carrying the stray contents as its path |
| `MainLoop.PrevImage` | src/main.cpp:86-95 | the viewer's fields afterwards are `PrevStep` of those before, for any index |
| `MainLoop.ReloadSpec` | src/main.cpp:96-100 | index, table and loaded stay, the signal is cleared, and one request for the current index is issued exactly when the signal was set |
| `MainLoop.ReloadKept` | src/main.cpp:96-100 | table and sorting flag are kept, only the reload signal changes, a current row stays current, and an index outside the table is requested carrying the stray contents as its path |
| `MainLoop.ReloadFile` | src/main.cpp:96-100 | the viewer's fields afterwards are `ReloadStep` of those before, for any index |
| `MainLoop.NavigateSpec` | src/main.cpp:75-101 | the frame as written: on an empty table nothing changes; otherwise the table is kept and all three signals end cleared; a current row stays current |
| `MainLoop.NavigateInRange` | src/main.cpp:75-101 | from a current row, what the array holds past its count makes no difference to the frame: it never reads past the table |
| `MainLoop.NavigateRequests` | src/main.cpp:75-101 | with the block guarded on the current row, a frame from any state keeps the earlier requests, adds at most three, and each new one names a row of the table and carries that row's path |
| `MainLoop.NavigateFrame` | src/main.cpp:75-101 | the viewer's fields afterwards are `NavigateAsWritten` of those before: the block guarded by `Count > 0` only, for any index |
| `MainLoop.FailedScanReadsPastTable` | src/main.cpp:75-95 | when a failed scan keeps fewer rows than the old current index, it returns SCAN_FAILED over a non-empty table with the index past its end, and going back in the next frame requests index current-1, still past the table, carrying the stray contents as its path |
| `MainLoop.EmptyTablePassesGuards` | src/main.cpp:37-64 | a path whose folder is not valid scans to SCAN_DIR with an empty table, and both guards as written pass |
| `MainLoop.EmptyFolderPassesGuards` | src/main.cpp:37-64 | a valid folder with no entries scans to SCAN_DIR with an empty table, and both guards as written pass |
| `MainLoop.StartAndDropRequestValid` | src/main.cpp:37-64 | with the row check added, the startup request and the drop request name a row of the table; the drop request is marked dropped, clears loaded and, for a folder, carries the first row's path |
| `MainLoop.Start` | src/main.cpp:36-42 | the viewer's fields afterwards are `StartStep`: the scan, then one request when a path was given, the scan did not fail and the current row exists |
| `MainLoop.Drop` | src/main.cpp:54-67 | the viewer's fields afterwards are `DropStep`: the dropped-file flag set, the scan, then `DropLoad` |
| `MainLoop.LoadDropped` | src/main.cpp:57-65 | the viewer's fields afterwards are `DropLoad`: when the guard passes and the row exists, loaded is cleared and a dropped request is added, with the first row's path for a folder |
| `Ppm.DecodePpm` | src/source.cpp:1106-1151 | the decoder's result is `ParsePpm` of the file |
| `Ppm.DecodePixels` | src/source.cpp:1136-1151 | the buffer fill and the block loop give `ReadPixels`: None when the data is rejected, else the buffer |
| `Ppm.DecodeFromReads` | src/source.cpp:1141-1151 | the block loop started at offset 0 on a buffer of 0xFF ends at `ReadPixels` |
| `Ppm.DecodeFromInvariant` | src/source.cpp:1141-1151 | after n pixels, with their expansion written, the rest of the loop still ends at `ReadPixels` |
| `Ppm.ReadSavedPixels` | src/source.cpp:1141-1151 | reading the RGB bytes of n pixels into a buffer of 4n bytes gives those pixels with alpha 0xFF |
| `Ppm.NewOpaque` | src/source.cpp:1136-1139 | a fresh buffer of the given size, every byte 0xFF |
| `Ppm.CopyBlock` | src/source.cpp:1145-1150 | the block's triples are written as RGBA pixels from the write position, which moves 4 bytes per triple |
| `Ppm.ExpandPixels` | src/source.cpp:1145-1150 | pixel p of the expansion is triple p of the data with alpha 0xFF |
| `Ppm.PutPixel` | src/source.cpp:1146-1149 | the four bytes at the position become r, g, b, 0xFF, and the rest stays |
| `Ppm.BlockRejected` | src/source.cpp:1142-1144 | a block the loop rejects means the data length is not a multiple of 3 or its pixels do not fit the buffer |
| `Ppm.ParsePpmCharacterised` | src/source.cpp:1121-1151 | the parse succeeds exactly when the header parses, the data length is a multiple of 3 and its pixels fit the buffer; the image then has the header's size and `Pixels` of the data |
| `Ppm.PixelsContent` | src/source.cpp:1136-1150 | the buffer has its full size, its first len/3 pixels are the data triples with alpha 0xFF, and every byte after them is 0xFF |
| `Ppm.CapacityExact` | src/source.cpp:1136 | for sides up to 16384 the 32-bit buffer size is exactly 4·w·h |
| `Ppm.ParsePpmAccepted` | src/source.cpp:1136-1151 | an accepted image with sides up to 16384 has 4·w·h bytes, read from at most 3·w·h bytes of data |
| `Ppm.ParsePpmNeedsMagic` | src/source.cpp:1121-1123 | input that does not start with "P6\n" fails |
| `Ppm.SecondCommentRejected` | src/source.cpp:1124-1131 | after one comment line, a second line starting with '#' makes the parse fail |
| `Ppm.SignedSidesAccepted` | src/source.cpp:1129 | `%u` takes a sign: "P6\n+1 +1\n255\n" followed by three bytes reads as a 1×1 image of those bytes with alpha 0xFF |
| `Ppm.NegativeSidesWrap` | src/source.cpp:1129-1136 | with "-1 -1" both sides are 2^32 - 1, the 32-bit buffer size wraps to 4 bytes, and the same three bytes are accepted |
| `Ppm.ZeroSidesAccepted` | src/source.cpp:1129-1138 | "P6\n0 0\n255\n" with no data parses to a 0×0 image |
| `Ppm.HeaderOfLayout` | src/source.cpp:1121-1135 | a file laid out as "P6\n", width, space, height, newline, "255", newline, data parses to that width, height and data |
| `Ppm.ScanDecimal` | src/source.cpp:1129-1132 | `%u` reads an unsigned numeral below 2^32 back as its value and stops just after it |
| `Ppm.ScanSpacedDecimal` | src/source.cpp:1129-1132 | the same after one white-space character |
| `Ppm.ScanMaxval` | src/source.cpp:1132-1134 | after white space, "255" reads back as 255 |
| `Ppm.DecimalValueOf` | src/source.cpp:1187 | the digits `%d` writes for n read back as n |
| `Ppm.DecimalNumeral` | src/source.cpp:1187 | those digits are a numeral of n |
| `Ppm.MaxvalNumeral` | src/source.cpp:1187 | "255" is the numeral of 255 |
| `Ppm.SavedHeader` | src/source.cpp:1187 | for sides below 2^32, the header `save_PPM` writes parses to the image's width and height, with the RGB bytes as pixel data |
| `Ppm.SavedLayoutHead` | src/source.cpp:1187 | a saved file starts with "P6\n", the width's digits and a space |
| `Ppm.SavedLayoutTail` | src/source.cpp:1187-1193 | then come the height's digits, a newline, "255", a newline and the RGB bytes |
| `Ppm.LoadAfterSave` | src/source.cpp:1183-1195 | loading what `save_PPM` writes gives the image's size and its pixels with alpha 0xFF, for sides up to 16384 |
| `Ppm.ExpandRgbOf` | src/source.cpp:1188-1193 | expanding the RGB bytes written gives the pixels with alpha set to 0xFF |
| `Rotation.RotateInverse` | src/source.cpp:2916-2934 | for orientations 0..3, Rotate R after Rotate L gives the view back, and the other way round |
| `Rotation.FourLeftTurns` | src/source.cpp:2916-2934 | four Rotate L give the view back |
| `Rotation.RotatePreservesValid` | src/source.cpp:2916-2934 | either button keeps a valid crop valid and swaps width and height |
| `Rotation.RotateLeftKeepsPixels` | src/source.cpp:2916-2922 | a pixel lies in the crop before Rotate L exactly when its turned position lies in the crop after |
| `Rotation.ExifOrientation` | src/source.cpp:929-936 | tags 3, 6 and 8 give an orientation in 0..3; every other tag keeps the orientation |
| `Rotation.ExifMatchesStandard` | src/source.cpp:929-936 | for tags 3, 6 and 8 the orientation set plus the clockwise turns the Exif standard prescribes make whole turns |
| `Thumbs.ScheduleLoop` | src/source.cpp:1735-1831 | the loop visits exactly the indices of `Schedule`, in order, and marks every row's thumbnail loaded |
| `Thumbs.ScheduleCovers` | src/source.cpp:1735-1831 | the schedule visits every index in [0, Count) once, and clamp(cur) a second time when it equals clamp(cur - 1) |
| `Thumbs.VisitsCover` | src/source.cpp:1740-1831 | from cursors pro and retro the remaining visits are exactly [0, retro] and [pro, Count) |
| `Thumbs.ScheduleStart` | src/source.cpp:1735-1750 | for 0 < cur < Count the first two visits are cur - 1 and cur |
| `Thumbs.CellInRow` | src/source.cpp:1798-1805 | a cell ends within the atlas width of 4000 |
| `Thumbs.CellInAtlas` | src/source.cpp:1798-1805 | a cell ends within the atlas height exactly when n is below (4000 / dim)² |
| `Thumbs.CellsDistinct` | src/source.cpp:1798-1805 | distinct indices get distinct cells |
| `Thumbs.PerRow` | src/source.cpp:1800 | 4000 / dim cells fit in a row, and one more does not |
| `App.CannotOpen` | src/source.cpp:1940-1942 | the scan-failure text holds no NUL when the extension holds none, so `push_alert` copies it whole |
| `App.AlertPushed` | src/source.cpp:788-793 | pushing an alert keeps the state well formed (alert buffer size and timer range) |
| `App.WicMessage` | src/source.cpp:944-960 | every WIC failure text holds no NUL when the extension and the system text hold none |
| `App.NotFoundMessage` | src/source.cpp:945 | the component-not-found text holds no NUL when the extension holds none |
| `App.InitFailureMessage` | src/source.cpp:947 | the initialisation-failure text holds no NUL when the extension holds none |
| `App.LoadFailed` | src/source.cpp:852-859 | keeps the state well formed, the table size and the current index, whether or not the current index lies in the table (which row it marks: `ViewerFacts.FailureMarksCurrent`) |
| `App.Committed` | src/source.cpp:860-883 | keeps the table and the current index (the commit rule: `ViewerFacts.CommitRule`) |
| `App.StbStep` | src/source.cpp:842-885 | keeps the state well formed, the current index and the table size, for any loaded and current index; a write past the table's count changes no row (its effect: `ViewerFacts.FailureMarksCurrent`, `ViewerFacts.TooLargeKeepsImage`) |
| `App.WicStep` | src/source.cpp:887-1000 | keeps the state well formed, the current index and the table size, for any loaded and current index; a write past the table's count changes no row |
| `App.WebpStep` | src/source.cpp:1010-1099 | keeps the state well formed, the current index and the table size, for any loaded and current index; a write past the table's count changes no row (the retagging: `ViewerFacts.WebpRetagged`) |
| `App.WebpAnimStep` | src/source.cpp:1068-1097 | keeps the state well formed, the current index and the table size, for any loaded and current index; a write past the table's count changes no row |
| `App.GifStep` | src/source.cpp:1198-1233 | keeps the state well formed, the current index and the table size, for any loaded and current index; a write past the table's count changes no row (a superseded load: `ViewerFacts.SupersededAnimResizes`) |
| `App.PpmStep` | src/source.cpp:1106-1180 | keeps the state well formed, the current index and the table size, for any loaded and current index; a write past the table's count changes no row (a failure: `ViewerFacts.PpmFailureSticks`; a 0×0 file: `ViewerFacts.ZeroSidedPpmInstalled`) |
| `App.Dispatched` | src/source.cpp:1415-1421 | keeps the state well formed, the current index and the table size, for any loaded and current index (the rows it touches: `ViewerFacts.DispatchKeepsOtherRows`) |
| `App.LoaderStepAsWritten` | src/source.cpp:1408-1425 | keeps the state well formed, the current index and the table size for any index, reading a row past the table's count as the stray row left there (what it skips: `ViewerFacts.WebpAnimIgnoredAsWritten`; past the table: `ViewerFacts.StaleLoadKeepsTable`) |
| `App.LoaderStep` | src/source.cpp:1408-1425 | keeps the state well formed, the current index and the table size for any index, reading a row past the count as the stray row (`ViewerFacts.LoaderKeepsOtherRows`, `ViewerFacts.LoaderSkipsLoadingRow`, `ViewerFacts.StaleLoadKeepsTable`) |
| `App.SortStep` | src/source.cpp:1611-1721 | leaves the alert and the requests alone (its result: `ViewerFacts.SortStepSpec`, `ViewerFacts.SortStuck`) |
| `App.FolderListed` | src/source.cpp:1964-1980 | leaves the alert and the requests alone (its result: `ViewerFacts.FolderListedSpec`) |
| `App.ScanStep` | src/source.cpp:1851-1980 | keeps the state well formed and issues no request; a folder with sorting on is sorted as a file is (its result: `ViewerFacts.ScanFailure`, `ViewerFacts.ScanSelects`, `ViewerFacts.FolderScanSorted`) |
| `App.ScanStepAsWritten` | src/source.cpp:1964-1968 | where the scan as written returns a result, that result is `ScanStep`'s (where it does not: `ViewerFacts.FolderSortNullAsWritten`) |
| `App.EntriesScanned` | src/source.cpp:1918-1980 | keeps the state well formed and issues no request |
| `App.Viewer.PushAlert` | src/source.cpp:788-793 | the viewer's fields afterwards are `AlertPushed` of those before |
| `App.Viewer.FailLoad` | src/source.cpp:852-859 | the viewer's fields afterwards are `LoadFailed` of those before, for any current index |
| `App.Viewer.SetLoading` | src/source.cpp:845-851 | only the row's loading flag changes; past the table's count nothing changes |
| `App.Viewer.Commit` | src/source.cpp:860-883 | the viewer's fields afterwards are `Committed`, and the histogram is recomputed from the pixels exactly when the image is installed and histograms are on |
| `App.Viewer.Install` | src/source.cpp:866-875 | the main image becomes the decoded one and `init_step_2` is set; the histogram is recomputed when asked and enabled |
| `App.Viewer.LoadImage` | src/source.cpp:842-885 | the viewer's fields afterwards are `StbStep` of those before, for any loaded and current index |
| `App.Viewer.ReadExif` | src/source.cpp:916-939 | the viewer's fields afterwards are `ExifRead`: `has_exif`, the orientation from the tag and the orientation signal |
| `App.Viewer.LoadImageWic` | src/source.cpp:887-1000 | the viewer's fields afterwards are `WicStep` of those before, for any loaded and current index, with the histogram recomputed for an installed image |
| `App.Viewer.Retag` | src/source.cpp:1072 | only the row's type changes; past the table's count nothing changes |
| `App.Viewer.UnloadAnim` | src/source.cpp:1002-1008 | only the animation changes: no frames and no buffer |
| `App.Viewer.ShowAnim` | src/source.cpp:1075-1089 | the viewer's fields afterwards are `AnimShown`: size and animation written, then unloaded for a superseded id or `init_step_2` set for the current one |
| `App.Viewer.LoadWebp` | src/source.cpp:1010-1099 | the viewer's fields afterwards are `WebpStep` of those before, for any loaded and current index, with the histogram recomputed for an installed still image |
| `App.Viewer.LoadWebpAnim` | src/source.cpp:1068-1097 | the viewer's fields afterwards are `WebpAnimStep` of those before, for any loaded and current index |
| `App.Viewer.LoadGif` | src/source.cpp:1198-1233 | the viewer's fields afterwards are `GifStep` of those before, for any loaded and current index |
| `App.Viewer.LoadPpm` | src/source.cpp:1106-1180 | the viewer's fields afterwards are `PpmStep` of those before, for any loaded and current index |
| `App.Viewer.LoaderThread` | src/source.cpp:1408-1425 | the viewer's fields afterwards are `LoaderStep` of those before, for any index, with the stray row read past the table's count |
| `App.Viewer.HandleInit` | src/source.cpp:3791-3805 | the viewer's fields afterwards are `InitStep` of those before |
| `App.Viewer.SortFolder` | src/source.cpp:1611-1721 | the viewer's fields afterwards are `SortStep` of those before |
| `App.Viewer.ScanFolder` | src/source.cpp:1851-1980 | the viewer's fields and the result afterwards are `ScanStep` of the fields before |
| `App.Viewer.ScanEntries` | src/source.cpp:1918-1980 | the viewer's fields and the result afterwards are `EntriesScanned` of the fields before |
| `App.Viewer.Locate` | src/source.cpp:1867-1907 | returns `Location`: a folder with a backslash added and the name "none" for a folder path, `LocateFile` for a file path |
| `App.Viewer.ListFolder` | src/source.cpp:1964-1980 | the viewer's fields afterwards are `FolderListed` of those before |
| `App.Viewer.ShuffleFolder` | src/source.cpp:3469-3477 | the viewer's fields afterwards are `ShuffleStep` of those before |
| `ViewerFacts.CommitRule` | src/source.cpp:860-883 | an installed image (id current, sides within MAX_GPU) replaces the main image and sets `init_step_2`, nothing else; otherwise image, signals and loaded stay; the alert changes exactly when the image is too large; a load for another id never touches image or animation |
| `ViewerFacts.FailureMarksCurrent` | src/source.cpp:845-859 | a failed load marks the current row failed, whichever row was loaded, sets loaded, shows the 50×53 placeholder, and changes no other row |
| `ViewerFacts.TooLargeKeepsImage` | src/source.cpp:861-863 | an image over MAX_GPU only clears the row's loading flag and pushes the alert: image and loaded stay and no row is marked failed |
| `ViewerFacts.FailedKeepsOtherRows` | src/source.cpp:851-859 | a failure changes no row but the loaded one and the current one, for any two indices |
| `ViewerFacts.StillKeepsOtherRows` | src/source.cpp:1415-1421 | the stb, PPM and WIC loaders change no row but the loaded one and the current one, for any two indices |
| `ViewerFacts.GifKeepsOtherRows` | src/source.cpp:1198-1233 | the GIF loader changes no row but the loaded one and the current one, for any two indices |
| `ViewerFacts.WebpKeepsOtherRows` | src/source.cpp:1010-1099 | the WebP loader changes no row but the loaded one and the current one, for any two indices |
| `ViewerFacts.DispatchKeepsOtherRows` | src/source.cpp:1415-1421 | whichever case of the switch runs, no row changes but the loaded one and the current one |
| `ViewerFacts.LoaderKeepsOtherRows` | src/source.cpp:1408-1425 | a loader call, as written or corrected, changes no row but the requested one and the current one, for any two indices |
| `ViewerFacts.StaleLoadKeepsTable` | src/source.cpp:1408-1425 | a request whose index and the current index both lie past the table's count (as the requests of the second and fourth findings do) leaves every row of the table as it was, as written and corrected |
| `ViewerFacts.LoaderSkipsLoadingRow` | src/source.cpp:1414 | a request for a row that is loading (or past the count, a stray row marked loading) changes no row, image or animation; only the alert timer is reset |
| `ViewerFacts.PpmFailureSticks` | src/source.cpp:1117-1152 | after a PPM failure (file not opened, or data rejected) the row stays loading with its failed flag as it was, and every later request for it only does the loader's resets |
| `ViewerFacts.ZeroSidedPpmInstalled` | src/source.cpp:1106-1180 | a 0×0 PPM file loaded for the current row is installed with both sides 0, the one input `reduced_fraction` has no result for |
| `ViewerFacts.SupersededAnimResizes` | src/source.cpp:1210-1223 | a GIF no longer current still sets the main image's size, leaves no animation and raises no signal |
| `ViewerFacts.InitFinishesLoad` | src/source.cpp:3791-3805 | with `init_step_2` set, the step sets loaded and clears the dropped-file flag and both signals |
| `ViewerFacts.InitSwapsOddOrientation` | src/source.cpp:3794-3798 | width and height swap exactly when both signals are set and the orientation is odd |
| `ViewerFacts.InitStepIdempotent` | src/source.cpp:3791-3805 | a second init step changes nothing |
| `ViewerFacts.WebpRetagged` | src/source.cpp:1068-1072 | an animated WebP retags its row WebpAnim and leaves its loading flag as it was |
| `ViewerFacts.WebpAnimIgnoredAsWritten` | src/source.cpp:1414-1421 | as written, a request for a row tagged WebpAnim that is not loading, in the table or past it, only does the loader's resets |
| `ViewerFacts.WebpReloadLostAsWritten` | src/source.cpp:1414-1421 | as written, once an animated WebP has been shown, a second request for its row only does the loader's resets |
| `ViewerFacts.WebpReloadShown` | src/source.cpp:1414-1421 | with the corrected dispatch, the second request shows the animation again: its frames, its canvas size and `init_step_2` |
| `ViewerFacts.SortStepSpec` | src/source.cpp:1700-1710 | with a listing the sort keeps the number of rows, clears sorting, leaves the rows ordered by index with no loading or failed flag, and puts the current index on the last row with the name, or keeps it |
| `ViewerFacts.SortStuck` | src/source.cpp:1611-1624 | when the Explorer listing cannot be obtained, the sort flag stays set and table and current index are unchanged |
| `ViewerFacts.ScanFailure` | src/source.cpp:1937-1962 | a blocked scan returns SCAN_FAILED, keeps the rows before the blocking entry and the old current index, and pushes an error alert |
| `ViewerFacts.FolderListedSpec` | src/source.cpp:1964-1980 | listing keeps the table size and, when some row has the name, the current index is the first such row |
| `ViewerFacts.FolderListedUnsorted` | src/source.cpp:1971-1973 | without a sort the table stays in directory order and, when no row has the name, the current index is 0 |
| `ViewerFacts.ScanSelects` | src/source.cpp:1913-1980 | a scan of a valid folder with no blocking entry ends as `FolderListed` over all kept entries, with SCAN_DIR or SCAN_FILE |
| `ViewerFacts.FolderSortNullAsWritten` | src/source.cpp:1964-1968 | a folder scanned with sorting on, and holding no unreadable file named "none", reaches `wcslen` of the null full path: the scan as written gives no result |
| `ViewerFacts.FolderScanSorted` | src/source.cpp:1964-1980 | with the folder's path in place of the null one, that scan returns SCAN_DIR, clears sorting, and lists every kept entry, ordered by its position in the Explorer listing |
| `ViewerFacts.ShuffleStepSpec` | src/source.cpp:3469-3477 | a shuffle keeps the multiset of rows; with more than one row the current index becomes 0 and a reload is signalled, otherwise nothing else changes |

## Left out

- Threads, critical sections, events and the shared `inputs` struct that the threads read are not modelled. Each thread's work is one sequential call that reads `current_file_index` when it commits.
- The `new_folder` break in `thumbs_thread` is left out, and so are a thumbnail pass over an empty table and the thumbnail decoding itself. Only the visit order and the cell arithmetic are modelled.
- `folder_sort_thread`'s window query is left out: the Explorer listing is an input, `NoShell` or `NoWindow` when it is missing.
- For `NoWindow` the model clears `sorting` and keeps the table and the index. The source does that only when no listing was ever made. After an earlier sort it tests the pointer to that sort's freed listing, which it never resets, and sorts by the freed listing again; the model does not capture that.
- An early `NoShell` return leaves `sorting` set and the mutex held. The model keeps the sort stuck, with `sorting` set and the table unchanged.
- `qsort` is not stable. The model fixes one order: insertion by index. It proves only what any `qsort` result shares, namely that the result is a permutation sorted by `.index`.
- `App.Viewer.SortFolder` assigns the sorted table as a value rather than sorting an array in place, so the swaps of `qsort` are not modelled.
- App.ScanStep: sorts a scanned folder the way it sorts a file, where the source passes the folder's null full path to `wcslen` (see Findings); the scan as written is `App.ScanStepAsWritten`.
- App.Viewer.ScanFolder: performs that corrected `ScanStep`.
- Overflow of the `err[128]` message buffer in `scan_folder` is not modelled; the message is kept whole.
- The decoders (stb_image, WIC, libwebp, the GIF decoder), the file system and the shell listing are inputs. Only their results are modelled.
- `load_image_post`, the window title, texture upload and all Direct3D calls are left out. The init step records only size, orientation and the loaded flag.
- The `dropped_file` flag is left out: a drop is the call `MainLoop.Drop`. The start without an argument, where `argv[1]` is a null pointer, is modelled by `MainLoop.StartStep` with no path.
- `check_valid_extention` reads one byte past the copied string for an empty extension. The model classifies an empty extension as Unknown.
- `clamp_circular` and `clamp` are not defined in the available source. `clamp_circular` is modelled as re-entering the range at the other end: below the range gives its top, above it gives its bottom. `clamp` is modelled as clamping to the range.
- main.h is not part of this model. The `File_Data` defaults are taken as index -1 and all flags false.
- `MAX_GPU` is modelled as the constant 16384.
- The unmatched `LeaveCriticalSection` in the animated-WebP branch is not modelled.
- Past the table's count, `G->files[i]` reads whatever the array still holds there. The model takes that as a parameter `stray`: the path a request then carries in the main loop, and the row `loader_thread` reads for its loading flag, type and extension.
- A loader's write to `G->files[i]` past the table's count lands in memory outside the table. The model changes no row of the table for it, and does not model what else that write overwrites.
- A request's path is informational: `loader_thread` reads only the index and the row the request points at. In the dropped-folder case the path is row 0's, but the row loaded is the current one.
- Arith.ReducedFraction: takes sides as natural numbers where `reduced_fraction` takes `int`. No loader installs a negative side, because a PPM side of 2^31 or more fails the unsigned `MAX_GPU` test, and the other decoders are inputs. C's truncating `%` on negative operands is not modelled.
- `load_image_post` is not modelled, so the division by zero that `reduced_fraction` performs for an installed 0×0 image (`ViewerFacts.ZeroSidedPpmInstalled`) is stated, not followed into the render step.
- Extension.Lower: maps every character above 'Z' to itself. The source calls `tolower` on `wchar_t` values, which depends on the locale above 127 and is undefined above 255.
- The `gifmode` test at the top of each frame also reads `files[current_file_index]` whenever the table is not empty. It only sizes the mouse area and is left out.
- When the EXE path has no backslash, the source passes a negative length to `memmove`. In the model `ExeFolderLength` returns -1 there and `ExeFolder` gives None.
- Histogram.Histograms.CalculateAsWritten: requires at least one whole pixel, because `size - 4` wraps around for a smaller buffer.
- App.Viewer.Commit: recomputes the histogram over every pixel, the corrected `calculate_histogram` of the first finding; the source skips the last pixel (`Histogram.Histograms.CalculateAsWritten`).
- App.Viewer.Install: the same corrected histogram over every pixel.
- App.Viewer.LoadImageWic: the same corrected histogram over every pixel.
- App.Viewer.LoadWebp: the same corrected histogram over every pixel.
- App.LoaderStep: sends a row tagged WebpAnim back to the WebP loader, the corrected switch of the third finding; as written the switch has no such case (`App.LoaderStepAsWritten`).
- App.Viewer.LoaderThread: performs that corrected `LoaderStep`.
- MainLoop.Start: issues its request only when the table holds the current row, the corrected guard of the second finding, after the corrected `ScanStep`.
- MainLoop.Drop: the same corrected guard and scan.
- MainLoop.LoadDropped: the same corrected guard.
- Ppm.ScanUInt: a `%u` value of 2^32 or more does not fit the `unsigned int` it is stored in, and C leaves that undefined. The model chooses to reduce it modulo 2^32.
- Animation playback timing, zoom, pan, settings, the GUI and the GPU are left out: they depend on the clock, floating point or the window.

Three behaviours of the code that the model follows:
- A failed scan keeps the rows pushed before the blocking entry; the table is not emptied.
- An image over `MAX_GPU` only pushes an alert; the row is not marked failed.
- The GIF loader has no `MAX_GPU` check.

## Findings

| source | as written | input that shows it | evidently intended | confidence | as-written member | corrected member |
|---|---|---|---|---|---|---|
| src/source.cpp:830 | `calculate_histogram` loops while `i < size - 4`, so the last pixel is never counted | the one-pixel image [7, 7, 7, 255] leaves red bin 7 at 0 | loop while `i < size`, so every channel's bins add up to the pixel count | high, not executed | `Histogram.LastPixelSkipped` | `Histogram.EveryPixelCounted` |
| src/main.cpp:37-64 | the startup and drop guards test only `scan != SCAN_FAILED` before reading `files[current_file_index]` (or `files[0]`) | a dropped folder with no viewable file: the scan succeeds and the table is empty | also require the table to hold the row the request reads | high, not executed | `MainLoop.EmptyTablePassesGuards` | `MainLoop.StartAndDropRequestValid` |
| src/source.cpp:1415-1421 | `loader_thread`'s switch has no case for TYPE_WEBP_ANIM, the tag `load_webp_pre` gives an animated WebP (line 1072) | open an animated WebP, move to another file and come back: nothing is loaded | send a retagged row back to the WebP loader | medium, not executed | `ViewerFacts.WebpReloadLostAsWritten` | `ViewerFacts.WebpReloadShown` |
| src/main.cpp:75-95 | the navigation block tests only `Count > 0` before reading `files[current_file_index]` and the rows next to it, but a failed scan keeps the old index over the rows collected before the blocking entry | at index 5, drop a file of unknown type, say notes.txt, whose folder lists one image before it: the scan keeps that row, stops at the dropped file and fails; press Left: index 4 of a one-row table is requested | skip the block unless the table holds the current row | high, not executed | `MainLoop.FailedScanReadsPastTable` | `MainLoop.NavigateRequests` |
| src/source.cpp:1964-1968 | `scan_folder` leaves `FullPath` a null pointer for a folder (line 1864), then passes it to `wcslen` when sorting is on | drop any folder on the window with sorting on and nothing sorting | sort a folder with the folder's own path | high, not executed | `ViewerFacts.FolderSortNullAsWritten` | `ViewerFacts.FolderScanSorted` |
