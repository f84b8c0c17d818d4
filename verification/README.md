# PGUPV core, modelled in Dafny

PGUPV is a C++ teaching library for OpenGL programming. This project models
the parts of it that compute something without a GPU, and proves what they
promise:

- **Intervals** (`intervals.dfy`). `PGUPV::Intervals` is an ordered list of
  closed `ulong` ranges. `addInterval` merges a new range into the list, and
  `consolidate` fuses overlapping neighbours. `popValue` consumes the set from
  the left. The class keeps its list in a field, and every method is proved
  equal to a function of the old list. The lemmas state the set semantics:
  which values are covered, when the list stays sorted, and what a pop leaves.
- **Tokenizer and interval reader** (`tokenizer.dfy`, `interval_parser.dfy`).
  The tokenizer of `intervals.cpp` splits text at separators and keeps empty
  tokens on request. On top of it, `readIntervalsFromString` runs a
  three-state machine over the tokens, and `readIntervalsFromCommandLine`
  first joins the arguments between `{` and `}`.
- **Images** (`images.dfy`). This module covers the byte-buffer routines of
  `Image`:
  - the sized constructor;
  - the vertical flip;
  - the red/blue swap;
  - the per-row maximum difference and `equals`;
  - the `difference` image;
  - the grey-to-RGB conversion.

  Pixels live in an `array3<byte>` (row, pixel, byte), and every routine
  is proved against a function on the frame it holds.
- **GeoTIFF keys** (`geotiff.dfy`). It models the GeoKeyDirectoryTag decoder
  (section 2.4 of the GeoTIFF 1.0 specification) with its inverse, and the
  key-by-key dispatch of `processGeoKeyDirectory` into the metadata record.
- **SDL event translation** (`keyboard.dfy`). This covers:
  - the sort of the keycode table;
  - the binary search of `translateKeyboardEvent`;
  - the joystick-hat mapping;
  - the event-type dispatch of `translateSDLEventToPGUPV`.
- **List box** (`listbox.dfy`). `ListBoxWidget<T>` holds labels, optional
  parallel user data, a C-string view of the labels and the selected index.
  `setElements(elems, data)` replaces the labels before it checks the user
  data. When that check raises, the widget is left with new labels and old
  user data (`StaleAfterFailedSetElements`).
- **Video device** (`fourcc.dfy`). It covers:
  - FourCC unpacking;
  - the FourCC to `pixel_format` translation;
  - the camera and format checks of the `VideoDevice` constructor.
- **Fonts** (`fonts.dfy`). This is the two-level font cache of `Font::loadFont`,
  keyed by file path and then by point size.
- **GML building reader** (`gml.dfy`). It models the first exercise's
  `readBuildings`:
  - each building part's `gml:id` is split in `size_t` arithmetic;
  - parts are grouped into a `std::map` ordered by building id, and each
    building keeps the bounding box of its parts;
  - the city lists the buildings in id order and folds their boxes.

`wrappers.dfy` holds `Option`, `Result` and `Status`. A thrown `ERRT` error
is modelled as a `Failure` or `Error` value.

## Model

| member | source | states |
|---|---|---|
| Intervals.IntervalSet.Empty | PGUPV/src/intervals.cpp:92-94 | true means no value is covered; false means there is a first range, and when every range is well formed its start is covered |
| Intervals.IntervalSet.AddInterval | PGUPV/src/intervals.cpp:31-53 | the new list is `Added(old list, [start,end])`: the two fast paths, the iterator loop with merge-then-consolidate, and the gap insertion as written |
| Intervals.IntervalSet.AddIntervals | PGUPV/src/intervals.cpp:55-59 | the list after adding every range of the other set in order |
| Intervals.IntervalSet.Consolidate | PGUPV/src/intervals.cpp:61-74 | the new list is the forward merge pass over the old one |
| Intervals.IntervalSet.PopValue | PGUPV/src/intervals.cpp:76-90 | the result and new list are those of `Popped(old list, v)`, including the `ulong` successor |
| Intervals.InInterval | PGUPV/src/intervals.cpp:15-17 | a range whose start is past its end holds no value, and a held value is a 64-bit value |
| Intervals.Intersects | PGUPV/src/intervals.cpp:19-21 | for well-formed ranges the endpoint test is the overlap test a.start <= b.end and b.start <= a.end |
| Intervals.Merge | PGUPV/src/intervals.cpp:23-29 | the smallest range holding both: it starts at one of the two starts, ends at one of the two ends, and contains both ranges |
| Intervals.IntersectsIffShared | PGUPV/src/intervals.cpp:19-21 | for non-empty ranges the endpoint test holds exactly when the ranges share a value |
| Intervals.AdjacentDoNotIntersect | PGUPV/src/intervals.cpp:19-21 | ranges that only touch ([a,b], [b+1,c]) do not intersect either way |
| Intervals.MergeCovers | PGUPV/src/intervals.cpp:23-29 | merging two intersecting ranges covers exactly their union |
| Intervals.MergeRunCovers | PGUPV/src/intervals.cpp:61-74 | the merge pass covers exactly the values of its input |
| Intervals.ConsolidatedCovers | PGUPV/src/intervals.cpp:61-74 | consolidate never changes which values are covered |
| Intervals.ConsolidatedSorted | PGUPV/src/intervals.cpp:61-74 | on well-formed ranges ordered by start, consolidate leaves them strictly apart and in order |
| Intervals.ScanCovers | PGUPV/src/intervals.cpp:40-51 | the loop loses no old value, adds only values of the new range, and covers all of it when some range reaches it |
| Intervals.AddedCovers | PGUPV/src/intervals.cpp:31-53 | on well-formed ranges, after addInterval exactly the old values and those of the new range are covered |
| Intervals.AddedFastPaths | PGUPV/src/intervals.cpp:33-38 | a range wholly before the first is prepended; one after the last is appended |
| Intervals.AddedAllCovers | PGUPV/src/intervals.cpp:55-59 | addIntervals covers the union of both sets |
| Intervals.AddedAllSnoc | PGUPV/src/intervals.cpp:55-59 | adding a list and then one range is adding the longer list |
| Intervals.ScanMergeShape | PGUPV/src/intervals.cpp:40-46 | when the first range meeting n is at p, n is merged into it (as written and as intended alike) |
| Intervals.ScanGapShape | PGUPV/src/intervals.cpp:47-49 | as written, a range in an interior gap is inserted before every later range |
| Intervals.ScanSpread | PGUPV/src/intervals.cpp:47-49 | as written, the scan puts a copy of the new range in front of each stored range that starts after it |
| Intervals.AddedSortedIff | PGUPV/src/intervals.cpp:31-53 | addInterval keeps a sorted list sorted exactly when the range is not in an interior gap, or the gap is the last one |
| Intervals.GapInsertionDuplicates | PGUPV/src/intervals.cpp:47-49 | [1,2],[10,11],[20,21] plus [5,6] gives two copies of [5,6] and an unsorted list |
| Intervals.AdjacentRangesStayApart | PGUPV/src/intervals.cpp:19-53 | adding [4,7] after [1,3] keeps two ranges |
| Intervals.ScanFixedGapShape | PGUPV/src/intervals.cpp:47-49 | with the loop left after the first insertion, n is inserted once before the first later range |
| Intervals.ScanFixedCovers | PGUPV/src/intervals.cpp:40-51 | the corrected loop keeps the coverage properties of the written one |
| Intervals.AddedFixedSorted | PGUPV/src/intervals.cpp:31-53 | the corrected addInterval keeps every sorted list sorted and covers exactly the old values plus the new range |
| Intervals.AddedIdempotentCovers | PGUPV/src/intervals.cpp:31-53 | as written, adding a range a second time covers no value the first addition did not |
| Intervals.AddedCommuteCovers | PGUPV/src/intervals.cpp:31-53 | as written, the values covered after adding two ranges do not depend on their order |
| Intervals.AddedCommuteFromEmpty | PGUPV/src/intervals.cpp:31-53 | two well-formed ranges added to an empty set give the same list in either order, with the written and the corrected insertion, and the two insertions agree there |
| Intervals.AddOrderMatters | PGUPV/src/intervals.cpp:47-49 | as written, adding [5,6] and [30,31] to [1,2],[10,11],[20,21] in the two orders gives different lists; the corrected insertion gives the same list |
| Intervals.MergeRunHolds | PGUPV/src/intervals.cpp:61-74 | the consolidate pass keeps, possibly widened, a range that holds a given range |
| Intervals.AddedFixedHolds | PGUPV/src/intervals.cpp:31-53 | after the corrected insertion one stored range holds all of the new range |
| Intervals.ConsolidatedSeparated | PGUPV/src/intervals.cpp:61-74 | consolidate leaves a sorted list of well-formed ranges unchanged |
| Intervals.ConsolidateIdempotent | PGUPV/src/intervals.cpp:61-74 | consolidating twice is consolidating once, on well-formed ranges ordered by start |
| Intervals.ReAddHeld | PGUPV/src/intervals.cpp:31-53 | the corrected insertion leaves a sorted list unchanged when a stored range already holds the new range |
| Intervals.AddedFixedIdempotent | PGUPV/src/intervals.cpp:31-53 | the corrected addInterval is idempotent on sorted lists: adding the same range twice gives the list one addition gives |
| Intervals.PopBelow | PGUPV/src/intervals.cpp:76-90 | when v is below the first range, every covered value is above v |
| Intervals.PopFrontCovers | PGUPV/src/intervals.cpp:78-84 | popping a value of the first range reports it and leaves exactly the values above v |
| Intervals.PopFrontSorted | PGUPV/src/intervals.cpp:78-84 | the shortened front range keeps the list sorted |
| Intervals.PopConsumes | PGUPV/src/intervals.cpp:76-90 | popValue reports whether v was covered, keeps the list sorted, and leaves exactly the old values above v |
| Intervals.PopMaxWraps | PGUPV/src/intervals.cpp:79 | popping 2^64-1 from [5, 2^64-1] leaves [0, 2^64-1] |
| Intervals.PopFixedBelowMax | PGUPV/src/intervals.cpp:76-90 | below 2^64-1 the corrected pop equals the written one |
| Intervals.PopMaxFixed | PGUPV/src/intervals.cpp:76-90 | the corrected pop of 2^64-1 reports coverage and leaves an empty sorted list |
| Intervals.PopConsumesFixed | PGUPV/src/intervals.cpp:76-90 | the corrected pop consumes the set up to v for every 64-bit v |
| Tokenizing.FindFirstOf | PGUPV/src/intervals.cpp:141 | the first separator index at or after i, or none when no separator follows |
| Tokenizing.Advance | PGUPV/src/intervals.cpp:141-153 | one scan moves the position strictly forward or to npos |
| Tokenizing.Tokenizer.constructor | PGUPV/src/intervals.cpp:135-137 | starts at position 0 with all tokens of the text pending |
| Tokenizing.Tokenizer.Next | PGUPV/src/intervals.cpp:139-156 | returns the first pending token and drops it, or false with nothing pending at npos; empty tokens are skipped unless kept |
| Tokenizing.TokensConcat | PGUPV/src/intervals.cpp:139-156 | with empty tokens kept, the tokens glue back to the rest of the text |
| Tokenizing.TokensShape | PGUPV/src/intervals.cpp:146-153 | every token but the last is a single separator or a non-empty separator-free run followed by one |
| Tokenizing.DropEmpty | PGUPV/src/intervals.cpp:154 | without keepEmpty the tokens are the kept ones minus the empty ones |
| Tokenizing.TokensShift | PGUPV/src/intervals.cpp:139-156 | tokens depend only on the text from the current position on |
| Tokenizing.TokensCons | PGUPV/src/intervals.cpp:146-153 | a run then a separator gives those two tokens, then the tokens of the rest |
| Tokenizing.TrailingSeparatorExample | PGUPV/src/intervals.cpp:139-156 | "5-" splits into "5", "-" and a final empty token |
| IntervalParser.Stoi | PGUPV/src/intervals.cpp:184 | a read value lies in the int range |
| IntervalParser.StoiDecimal | PGUPV/src/intervals.cpp:184 | the decimal text of every non-negative int reads back as that int |
| IntervalParser.StoiNeedsDigits | PGUPV/src/intervals.cpp:184-188 | text with no leading digit is rejected |
| IntervalParser.StoiIgnoresTrailing | PGUPV/src/intervals.cpp:184 | "3a" reads as 3 |
| IntervalParser.ReadIntervalsFromString | PGUPV/src/intervals.cpp:167-222 | success yields a set equal to adding the machine's ranges in order; failure carries the machine's error |
| IntervalParser.RenderAccepted | PGUPV/src/intervals.cpp:167-222 | every comma-separated list of numbers and ranges is accepted and yields its ranges in order |
| IntervalParser.ReversedRangeKept | PGUPV/src/intervals.cpp:203-211 | "9-5" adds the reversed range [9,5] |
| IntervalParser.LetterRejected | PGUPV/src/intervals.cpp:183-188 | "a-3" fails with "No se esperaba a" |
| IntervalParser.EmptyAccepted | PGUPV/src/intervals.cpp:167-222 | the empty text adds nothing |
| IntervalParser.StepToken | PGUPV/src/intervals.cpp:180-213 | one pass of the switch raises only "No se esperaba" with the token, and commits at most one range, after those already committed |
| IntervalParser.Steps | PGUPV/src/intervals.cpp:179-214 | the loop keeps the committed ranges, adds at most one per token, and fails only with "No se esperaba" and a token of the input |
| IntervalParser.Finish | PGUPV/src/intervals.cpp:215-221 | after the loop only READ_END fails, with "Rango sin acabar"; READ_START adds at most its single value |
| IntervalParser.ParseIntervals | PGUPV/src/intervals.cpp:167-222 | the reader fails only with "Rango sin acabar" or with "No se esperaba" and one of the tokens of the text |
| IntervalParser.UnfinishedUnreachable | PGUPV/src/intervals.cpp:218-220 | as written, "Rango sin acabar" is never reported |
| IntervalParser.TrailingDashNotExpected | PGUPV/src/intervals.cpp:203-209 | "5-" fails with "No se esperaba " and an empty token |
| IntervalParser.FixedReportsUnfinished | PGUPV/src/intervals.cpp:215-220 | with empty tokens dropped, "5-" fails with "Rango sin acabar" |
| IntervalParser.FixedVsWritten | PGUPV/src/intervals.cpp:167-222 | the corrected reader agrees with the written one everywhere except that an empty-token error becomes "Rango sin acabar" |
| IntervalParser.IndexOf | PGUPV/src/intervals.cpp:99 | strchr: the first index of c, absent exactly when c does not occur |
| IntervalParser.JoinBraces | PGUPV/src/intervals.cpp:99-118 | the join fails only with the missing-'{' or the missing-'}' error, and on success the next argument index moves forward and stays within argv |
| IntervalParser.ParseCommandLine | PGUPV/src/intervals.cpp:96-127 | without a '{' in argv[pos] the result is the missing-'{' error; any other error is the missing '}' or an error of the text between the braces |
| IntervalParser.CutAtBrace | PGUPV/src/intervals.cpp:121-125 | the text before the first '}', which does not contain '}' |
| IntervalParser.JoinBracesSpec | PGUPV/src/intervals.cpp:99-118 | the missing-'{' error comes exactly when argv[pos] has no '{'; otherwise the joined text runs from after the '{' through the first argument holding '}', or fails with the missing-'}' error |
| IntervalParser.JoinBracedArgs | PGUPV/src/intervals.cpp:99-118 | the joining loop computes JoinBraces and leaves pos after the last argument it used |
| IntervalParser.ReadIntervalsFromCommandLine | PGUPV/src/intervals.cpp:96-128 | the set read from the joined text cut at its first '}', with pos advanced as the source does |
| Images.Rows | PGUPV/src/image.cpp:842-860 | the frame a buffer holds: each byte at its (row, pixel, byte) place |
| Images.OffsetInRange | PGUPV/src/image.cpp:198-213 | every byte position's offset lies inside the height × stride buffer |
| Images.OffsetInjective | PGUPV/src/image.cpp:198-213 | distinct positions have distinct offsets |
| Images.StrideIsRowBytes | PGUPV/src/image.cpp:200 | width × bpp / 8 is width times the pixel size |
| Images.Image.constructor | PGUPV/src/image.cpp:198-213 | a buffer of the given shape; with source data, each byte copied from its flat offset |
| Images.Image.Create | PGUPV/src/image.cpp:202-204 | fails exactly for depths other than 8, 16, 24 and 32; otherwise as the constructor |
| Images.Image.FlipV | PGUPV/src/image.cpp:656-666 | an image without pixels is an error; otherwise the rows are reversed |
| Images.FlipVImage | PGUPV/src/image.cpp:645-654 | swapping row pairs below height / 2 reverses the rows |
| Images.SwapRows | PGUPV/src/image.cpp:648-651 | rows a and b exchange places and every other row is kept |
| Images.FlippedRow | PGUPV/src/image.cpp:648-651 | row r of the flipped frame is row h-1-r of the original |
| Images.FlippedMiddle | PGUPV/src/image.cpp:647 | with an odd height the middle row stays |
| Images.FlippedTwice | PGUPV/src/image.cpp:645-654 | flipping twice gives back the original |
| Images.Image.SwapRB | PGUPV/src/image.cpp:735-746 | only 24 and 32 bpp images are accepted; bytes 0 and 2 of every pixel are exchanged |
| Images.SwapRowRB | PGUPV/src/image.cpp:740-744 | in row j bytes 0 and 2 of every pixel exchange places; every other byte is kept |
| Images.SwapPixelAt | PGUPV/src/image.cpp:735-746 | red and blue trade places and every other byte is kept |
| Images.SwappedRBTwice | PGUPV/src/image.cpp:735-746 | swapping twice gives back the original frame |
| Images.MaxDiffPixelRow8bpp | PGUPV/src/image.cpp:669-677 | the result is the largest byte difference over the first width bytes |
| Images.MaxAbsDiffAtMost | PGUPV/src/image.cpp:669-677 | the maximum is at most t exactly when every byte pair differs by at most t |
| Images.MaxAbsDiffZero | PGUPV/src/image.cpp:669-677 | the maximum is 0 exactly when the rows are equal |
| Images.MaxAbsDiffAttained | PGUPV/src/image.cpp:669-677 | some byte pair differs by exactly the maximum |
| Images.MaxDiffPixelRow | PGUPV/src/image.cpp:679-702 | grey rows are delegated; colour rows give the largest alpha-weighted channel difference |
| Images.MaxDiffColourRow | PGUPV/src/image.cpp:683-701 | the colour loop computes the largest alpha-weighted difference of channels 0-2 |
| Images.RowDiffAtMost | PGUPV/src/image.cpp:689-700 | the colour maximum is at most t exactly when every weighted channel difference is |
| Images.OpaqueChannelDiff | PGUPV/src/image.cpp:688-693 | for opaque pixels the weighted difference is the plain byte difference |
| Images.Rgb24AtMost | PGUPV/src/image.cpp:679-702 | two 24 bpp rows are within t exactly when every colour byte pair differs by at most t |
| Images.RowDifferenceSelf | PGUPV/src/image.cpp:679-702 | a row compared with itself differs by 0 at every depth |
| Images.Image.Equals | PGUPV/src/image.cpp:704-733 | the same object is equal; different sizes are not; mixed 8 bpp and colour depths are errors; otherwise equal exactly when every row is within maxDifference |
| Images.WithinToleranceSelf | PGUPV/src/image.cpp:704-733 | every image is within tolerance 0 of its own pixels |
| Images.Image.Difference | PGUPV/src/image.cpp:786-824 | fails exactly for different sizes or depths other than 24/32; otherwise a new image of the output depth holding the per-channel differences; the alpha byte is the alpha difference when both inputs and the output are 32 bpp, and opaque only when an input lacks alpha |
| Images.DiffFrame | PGUPV/src/image.cpp:800-821 | the difference frame has the input shape and n-byte pixels |
| Images.DiffRows | PGUPV/src/image.cpp:800-821 | after the loop over rows the output buffer holds the difference frame |
| Images.DiffRow | PGUPV/src/image.cpp:805-820 | row y of the output holds the difference pixels of the two rows; the other rows are kept |
| Images.DiffFrameSymmetric | PGUPV/src/image.cpp:807 | the difference does not depend on the order of its inputs |
| Images.DiffFrameSelf | PGUPV/src/image.cpp:807 | an image minus itself is 0 in every subtracted channel |
| Images.WrittenBytesOverrun | PGUPV/src/image.cpp:794-819 | as written, two 32 bpp inputs with alpha ignored get 4 bytes written per 3-byte output pixel, and no other depth combination overruns |
| Images.WrittenRowOverrun | PGUPV/src/image.cpp:794-819 | such a row of w pixels gets 4w bytes written into 3w |
| Images.DiffChannelsFit | PGUPV/src/image.cpp:794-819 | the corrected channel count reads only bytes both inputs have and fits the output pixel |
| Images.Convert8BPPGrayTo24BPPGray | PGUPV/src/image.cpp:863-880 | a new 24 bpp image of the same size whose pixels repeat each grey byte three times |
| Images.ExpandRow | PGUPV/src/image.cpp:869-876 | every pixel of row y repeats its grey byte in the three channels; the other rows are kept |
| Images.ChannelOfGreyToRgb | PGUPV/include/image.h:128-132 | any one channel of the converted image is the grey image back |
| GeoTiff.ReadGeoKeyDirectory | PGUPV/src/image.cpp:481-497 | the directory read is the header words plus one key per announced entry |
| GeoTiff.KeysOf | PGUPV/src/image.cpp:487-495 | key i is the four words at 4 + 4i |
| GeoTiff.DecodeEncode | PGUPV/src/image.cpp:481-497 | decoding the words of a consistent directory gives it back |
| GeoTiff.EncodeDecode | PGUPV/src/image.cpp:481-497 | re-encoding a decoded directory gives exactly the words read |
| GeoTiff.KeyWordsSlices | PGUPV/src/image.cpp:487-495 | keys read in order encode to the words they were read from |
| GeoTiff.ProcessGeoKeyDirectory | PGUPV/src/geotiff.cpp:46-186 | the metadata after the loop is the keys applied one after the other |
| GeoTiff.ApplyKey | PGUPV/src/geotiff.cpp:51-187 | a key changes at most the field its id names, and the ids the switch only breaks on, and unlisted ids, change nothing |
| GeoTiff.ProcessAll | PGUPV/src/geotiff.cpp:50-188 | a directory of keys the switch skips leaves the metadata unchanged |
| GeoTiff.ApplyKeyInPlace | PGUPV/src/geotiff.cpp:51-187 | one pass of the switch updates the metadata exactly as the key's case prescribes |
| GeoTiff.ModelTypeOf | PGUPV/src/geotiff.cpp:52-56 | codes 1, 2 and 3 select projected, geographic and geocentric; any other code keeps the previous type |
| GeoTiff.GeodeticCRSOf | PGUPV/src/geotiff.cpp:65-72 | EUREF89 exactly for code 4258 |
| GeoTiff.AngularUnitsOf | PGUPV/src/geotiff.cpp:83-89 | radian exactly for 9101, degree exactly for 9102 |
| GeoTiff.EllipsoidOf | PGUPV/src/geotiff.cpp:92-97 | GRS 1980 exactly for 7019 |
| GeoTiff.ProjectedCSTypeOf | PGUPV/src/geotiff.cpp:116-121 | ETRS89 / UTM 30N exactly for 25830 |
| GeoTiff.LinearUnitsOf | PGUPV/src/geotiff.cpp:131-136 | metre exactly for 9001 |
| GeoTiff.CitationOf | PGUPV/src/geotiff.cpp:60-64 | count - 1 characters of the ASCII parameters from index |
| GeoTiff.ProcessAppend | PGUPV/src/geotiff.cpp:50 | processing a directory in two parts is processing one part and then the other |
| GeoTiff.Untouched | PGUPV/src/geotiff.cpp:50-186 | keys that do not name a field leave it as it was |
| GeoTiff.LastKeyWins | PGUPV/src/geotiff.cpp:50-186 | the last key naming a field decides it |
| GeoTiff.CitationKey | PGUPV/src/geotiff.cpp:60-64 | with ASCII parameters the citation is set to the counted text; without them it is untouched |
| Keyboard.MinFrom | PGUPV/src/sdlAdapter.cpp:195-203 | the index of an entry with the smallest keycode in the rest of the table |
| Keyboard.SortTranslationTable | PGUPV/src/sdlAdapter.cpp:193-203 | the table is sorted by SDL keycode and is a permutation of the old one |
| Keyboard.SortedDistinctIsStrict | PGUPV/src/sdlAdapter.cpp:57-185 | a sorted table without repeated keycodes is strictly ascending |
| Keyboard.SortedStartsAtUnknown | PGUPV/src/sdlAdapter.cpp:58 | a sorted table that holds SDLK_UNKNOWN starts with it |
| Keyboard.TranslateSpec | PGUPV/src/sdlAdapter.cpp:604-619 | the reference lookup gives the entry's code when the key is present, and Unknown otherwise |
| Keyboard.SearchKey | PGUPV/src/sdlAdapter.cpp:604-619 | the binary search returns the reference lookup's code |
| Keyboard.HatBijection | PGUPV/src/sdlAdapter.cpp:675-709 | the nine SDL hat values and the nine positions correspond one to one |
| Keyboard.HatPositionOf | PGUPV/src/sdlAdapter.cpp:675-707 | a recognised hat value is the SDL value of the position it yields |
| Keyboard.WindowBound | PGUPV/src/sdlAdapter.cpp:623-754 | the mouse, text and window translators produce an event exactly for a known window, of the translator's kind and from one of the known windows |
| Keyboard.TranslateKeyboardEvent | PGUPV/src/sdlAdapter.cpp:588-621 | repeats and unknown windows are dropped; otherwise the event carries the window, state, modifiers and translated key |
| Keyboard.TranslateSdlEvent | PGUPV/src/sdlAdapter.cpp:757-789 | each event type goes to its translator: keys to the keyboard translation, each mouse, text, resize and close event to the window-bound event of its own kind, joystick events to their event; quit is always produced; unknown types are dropped |
| ListBox.Find | PGUPV/include/listBoxWidget.h:123 | std::find: the first index holding val, or the end when val does not occur |
| ListBox.ListBoxWidget.constructor | PGUPV/include/listBoxWidget.h:51-57 | labels set, no user data, view equal to the labels, and the given index selected |
| ListBox.ListBoxWidget.GetSelectedElement | PGUPV/include/listBoxWidget.h:100-102 | the label at the selected index |
| ListBox.ListBoxWidget.GetSelectedUserData | PGUPV/include/listBoxWidget.h:107-109 | the user datum at the selected index |
| ListBox.ListBoxWidget.SetSelected | PGUPV/include/listBoxWidget.h:114-116 | the selection is idx and nothing else changes |
| ListBox.ListBoxWidget.SetSelectedByValue | PGUPV/include/listBoxWidget.h:122-130 | selects the first index whose datum is val; nothing changes when there is none |
| ListBox.ListBoxWidget.SetEmptySelection | PGUPV/include/listBoxWidget.h:89-91 | no element is selected afterwards |
| ListBox.ListBoxWidget.SetUserData | PGUPV/include/listBoxWidget.h:188-192 | fails exactly when the data is non-empty and of a different length than the labels; otherwise stores it |
| ListBox.ListBoxWidget.GetUserData | PGUPV/include/listBoxWidget.h:197-201 | fails exactly when id is out of range; otherwise the datum at id |
| ListBox.ListBoxWidget.RefreshList | PGUPV/include/listBoxWidget.h:216-227 | the view lists the labels; the first is selected, or the selection holder is emptied when there are none |
| ListBox.ListBoxWidget.SetElementsWithData | PGUPV/include/listBoxWidget.h:157-162 | labels replaced first; on a size mismatch the rest stays as it was; otherwise consistent with the first label selected or none |
| ListBox.ListBoxWidget.SetElements | PGUPV/include/listBoxWidget.h:152-154 | new labels, no user data, first label selected or none, consistent |
| ListBox.ListBoxWidget.Clear | PGUPV/include/listBoxWidget.h:177-179 | no labels, no user data, no selection |
| ListBox.StaleAfterFailedSetElements | PGUPV/include/listBoxWidget.h:157-162 | a failed setElements leaves three labels beside two user data |
| VideoDevice.FourCCToString | PGUPV/src/videoDevice.cpp:62-71 | four characters, the low byte first |
| VideoDevice.UnpackAt | PGUPV/src/videoDevice.cpp:65-69 | character i is (fourcc >> 8i) & 0xFF |
| VideoDevice.PackUnpack | PGUPV/src/videoDevice.cpp:62-71 | packing the unpacked bytes gives back every code that fits |
| VideoDevice.UnpackPack | PGUPV/src/videoDevice.cpp:62-71 | unpacking the packed codes of byte characters gives back the string |
| VideoDevice.FourCCRoundTrip | PGUPV/src/videoDevice.cpp:62-71 | the two round trips for 32-bit codes and four-character strings |
| VideoDevice.PixelFormatOf | PGUPV/src/videoDevice.cpp:140-169 | accepted exactly for YUY2, YUYV, MJPG, RGB3, RGB4 and GREY, each mapped to its ffmpeg name |
| VideoDevice.SupportedCodesAccepted | PGUPV/src/videoDevice.cpp:140-169 | a 32-bit code is accepted exactly when it is one of the six codes of those names |
| VideoDevice.OpenRequestFor | PGUPV/src/videoDevice.cpp:36-43 | succeeds exactly when the camera and format exist and the format is supported, and then carries that format and its pixel format |
| Fonts.OpenFont | PGUPV/src/font.cpp:16-21 | fails exactly when the library returns no handle; otherwise a new font of that path and size |
| Fonts.WithPath | PGUPV/src/font.cpp:31-35 | the cache gains the path, keeps every font and caches nothing new |
| Fonts.Stored | PGUPV/src/font.cpp:38-41 | the cache keeps every font and gains exactly the new one under (path, size) |
| Fonts.ExtendsTransitive | PGUPV/src/font.cpp:23-44 | cache growth composes |
| Fonts.FontCache.constructor | PGUPV/src/font.cpp:23-29 | not initialised and an empty cache |
| Fonts.FontCache.LoadFont | PGUPV/src/font.cpp:23-44 | an init failure raises with nothing changed; a hit returns the cached font; a miss opens, stores and returns a new one, or leaves only the path entry |
| Fonts.FontCache.GetDefaultFont | PGUPV/src/font.cpp:46-48 | loadFont on the default path and size |
| Fonts.FontCache.LoadTwice | PGUPV/src/font.cpp:37-43 | once a font is returned, loading it again returns the same object |
| Gml.FindLast | exercises/p1/gmlReader.cpp:60 | find_last_of: the last index of the character, or npos when it does not occur |
| Gml.FindFirst | exercises/p1/gmlReader.cpp:61 | find: the first index of the character, or npos when it does not occur |
| Gml.Substr | exercises/p1/gmlReader.cpp:62-63 | at most count characters from pos |
| Gml.BuildingIdOf | exercises/p1/gmlReader.cpp:60-62 | the building id is no longer than the gml:id and holds no '.' |
| Gml.PartIdOf | exercises/p1/gmlReader.cpp:61-63 | the part id is a suffix of the gml:id, and the whole id when it has no '_' |
| Gml.SplitDotUnderscore | exercises/p1/gmlReader.cpp:59-63 | with a last '.' before the first '_', the building id lies between them, the part id follows the '_', and the id reassembles |
| Gml.SplitNoDot | exercises/p1/gmlReader.cpp:59-63 | without '.', the building id is the prefix before the first '_' |
| Gml.SplitNoUnderscore | exercises/p1/gmlReader.cpp:59-63 | without '_', the part id is the whole id and the building id runs from after the last '.' to the end |
| Gml.SplitUnderscoreBeforeDot | exercises/p1/gmlReader.cpp:62 | when the first '_' precedes the last '.', the size_t count wraps and the building id runs to the end |
| Gml.PartBox | exercises/p1/gmlReader.cpp:22-28 | the box loop computes the box of the exterior ring |
| Gml.BoxBounds | exercises/p1/gmlReader.cpp:22-28 | every point lies in the box, and the box stays within the float sentinels |
| Gml.BoxAttained | exercises/p1/gmlReader.cpp:22-28 | each bound of a non-empty box is a coordinate of some point |
| Gml.LexLessTransitive | exercises/p1/gmlReader.cpp:30 | std::string's operator< is transitive |
| Gml.LexLessTotal | exercises/p1/gmlReader.cpp:30 | of two distinct strings one is less |
| Gml.Get | exercises/p1/gmlReader.cpp:30 | map find: present exactly for keys of the map |
| Gml.PutKeys | exercises/p1/gmlReader.cpp:36 | map insert adds exactly the key |
| Gml.PutSorted | exercises/p1/gmlReader.cpp:36 | map insert keeps key order |
| Gml.PutGet | exercises/p1/gmlReader.cpp:36-39 | after c[k] = b, k finds b and every other key finds what it found before |
| Gml.AddBuildingPart | exercises/p1/gmlReader.cpp:21-44 | a new id gets a building of that part; an existing one is widened by the part's box and gains the part; other ids are unchanged; order and keys are kept |
| Gml.GetKeysMatch | exercises/p1/gmlReader.cpp:32 | the building found under k has id k |
| Gml.UpdateSrs | exercises/p1/gmlReader.cpp:69-75 | the first non-empty srsName met is kept |
| Gml.CityFromMap | exercises/p1/gmlReader.cpp:147-155 | the buildings in key order and the box folded over them |
| Gml.ReadBuildings | exercises/p1/gmlReader.cpp:46-157 | a failed load gives the default City; otherwise the city of the collected map and coordinate system |
| Gml.CollectWellFormed | exercises/p1/gmlReader.cpp:55-145 | the map is in key order and keyed by building id |
| Gml.CityAscending | exercises/p1/gmlReader.cpp:151-155 | the city lists its buildings in strictly ascending id order |
| Gml.CollectGroups | exercises/p1/gmlReader.cpp:55-145 | a building is present exactly when some part names it, and holds exactly those parts in document order |
| Gml.CityBoxBounds | exercises/p1/gmlReader.cpp:147-155 | the city box encloses every building's box |

## Left out

- Image loading and saving (FreeImage), GL format queries, multi-face and animated images, and `extractFrame` are not modelled. An image has one face, so `swapRB`'s frame parameter is absent.
- Images.Convert8BPPGrayTo24BPPGray: requires an 8 bpp source, the only input the routine is documented for. On a deeper source the C++ reads the first `width` bytes of each row (PGUPV/src/image.cpp:863-879), which lie inside the row, and copies neighbouring channel bytes as if each were a grey pixel. The model does not describe that output.
- GeoTIFF: only the fields the key directory fills are modelled. The tie points, pixel scale and the raster-to-model transform are not.
- GeoTiff.ProcessGeoKeyDirectory: requires, for the three axis keys, what PGUPV/src/geotiff.cpp:99, 103 and 107 assert (tag location 34736, count 1, double parameters present). It also requires what the source never checks: the key's index inside the double parameters, and for the two citation keys a count of at least 1 with the counted text inside the ASCII parameters. The C++ reads out of range on those inputs, which is undefined, so the model excludes them.
- SDL adapter: window creation, mouse, text and resize payloads, and joystick axis normalisation are not modelled. The window-resized assert is not modelled either. A window-bound event is only checked for a known window.
- Keyboard.SortTranslationTable: `qsort` is modelled by a selection sort with the same ordering and permutation contract. The SDL key values of the table entries are not reproduced.
- Keyboard.SearchKey: requires the key to be at least the first table keycode. The table holds SDLK_UNKNOWN, the smallest keycode, so every key meets this (Keyboard.SortedStartsAtUnknown).
- Error messages thrown with `ERRT` are paraphrased.
- List box:
  - the Value<int> listeners and the notify flags are not modelled;
  - rendering and `showNumItems` are not modelled;
  - the constructor that writes a uniform (listBoxWidget.h:66-76) is not modelled.
- ListBox.ListBoxWidget.GetSelectedElement: requires a selected index in range, because the source indexes without a check.
- ListBox.ListBoxWidget.GetSelectedUserData: requires a selected index inside the user data, because the source indexes `userData` without a check (PGUPV/include/listBoxWidget.h:107-109).
- ListBox.ListBoxWidget.RefreshList: the Value<int> holder is not part of this model. Its `clear()` is assumed to keep the stored index and only mark the holder empty, so the model lowers a flag and leaves `selected` unchanged.
- Video device: libav and openpnp calls, device enumeration, the framerate and video_size options, and backend open failures are not modelled. The camera list comes in as a parameter.
- Fonts: SDL_ttf is outside the model. Whether TTF_Init succeeds and whether a handle is returned come in as parameters. The values of DEFAULT_FONT and DEFAULT_TEXT_SIZE are constructor parameters, because font.h is not part of this model.
- Fonts.FontCache: the C++ cache is static class state. Here it is one FontCache object.
- GML reader:
  - the XML traversal is not modelled; a document is the list of its building parts;
  - interior rings, floors, underground height and coordinate parsing are not modelled;
  - the assert that every srsName matches is not modelled.
- Gml.FindLast: strings of 2^64-1 characters or more are excluded, because their npos would be ambiguous. Gml.FindFirst has the same limit.
- Gml.BoxBounds: coordinates are reals, so rounding to float and double is not modelled.
- IntervalParser.JoinBracedArgs: when no argument from argv[pos] on holds a '}', the source builds its error message from argv[argc] (PGUPV/src/intervals.cpp:115), one past the last argument. That is a null pointer for main's argv and makes the string concatenation undefined. The model returns the plain missing-'}' failure with pos' == |argv| instead; IntervalParser.JoinBraces and IntervalParser.ParseCommandLine do the same.
- IntervalParser.ReadIntervalsFromCommandLine: inherits that missing-'}' failure, so the out-of-range read of argv[argc] is not modelled.
- Images.Image.Difference: uses the corrected channel count, 4 only when both inputs and the output are 32 bpp, where the source takes 4 whenever the smaller input depth is 32 (PGUPV/src/image.cpp:799). On two 32 bpp inputs with alpha ignored the source writes past the output buffer; the method does not reproduce that write (see Findings, Images.WrittenBytesOverrun).
- Images.Image.constructor: the stride width × bpp / 8 and the buffer size stride × height are computed in 32-bit `uint` (PGUPV/src/image.cpp:200, 207) and wrap for very large images. The model uses unbounded integers.
- Intervals.PopConsumes: requires v below 2^64-1, because at 2^64-1 the written code wraps (see Findings).
- Intervals: the public methods keep the source's behaviour as written. AddInterval uses the duplicating gap insertion and PopValue the wrapping successor. The corrected definitions appear only in the lemmas of the Findings table.

## Findings

| source | as written | input that shows it | evidently intended | confidence | as-written member | corrected member |
|---|---|---|---|---|---|---|
| PGUPV/src/intervals.cpp:47-49 | a range that falls in an interior gap is inserted before every later range, because the loop does not stop after inserting | [1,2],[10,11],[20,21] then addInterval(5,6) gives [1,2],[5,6],[10,11],[5,6],[20,21] | insert once and stop, keeping the list sorted | high, not executed | Intervals.GapInsertionDuplicates | Intervals.AddedFixedSorted |
| PGUPV/src/intervals.cpp:170, 203-209, 218-220 | the tokenizer keeps empty tokens, so "5-" ends with an empty token that READ_END rejects; "Rango sin acabar" can never be reported | "5-" fails with "No se esperaba " | report "Rango sin acabar" for an unfinished range | high, not executed | IntervalParser.TrailingDashNotExpected | IntervalParser.FixedVsWritten |
| PGUPV/src/image.cpp:794-799 | the channel count comes from the smaller input depth, not the output depth | two 32 bpp images with ignoreAlpha writes 4 bytes per pixel into a 24 bpp output, past the buffer end | subtract 4 channels only when the output has alpha | high, not executed | Images.WrittenBytesOverrun | Images.DiffChannelsFit |
| PGUPV/src/intervals.cpp:79 | v + 1 wraps when v is the largest ulong | popValue(2^64-1) on [5, 2^64-1] leaves [0, 2^64-1], which covers 0-4 | drop the range when v is its last value | medium, not executed | Intervals.PopMaxWraps | Intervals.PopConsumesFixed |
