# SynthTextGerman data pipeline, modelled in Dafny

SynthTextGerman builds synthetic scene-text images for German. This project models five of its scripts:

- `add_more_data.py` merges a directory of `.jpg` images with a depth file and a segmentation file into one HDF5 dataset (`image`, `depth`, `seg`).
- `gen_more.py` walks a window of the sorted image names of that dataset. For each name it asks the renderer for synthesis results and appends them to the `data` group of a fresh output file as `<name>_<i>`. Any failure for one key is caught, and the loop moves on.
- `common.py` holds the ANSI colour codes, `colorize`, and the possibility that a unit of work ends in `TimeoutException`.
- `update_freq.py` builds the character model: each character's relative frequency in the stripped lines of a text corpus.
- `test_fonts.py` judges from a rendered bitmap whether a font can draw a glyph (`glyphInFont`). It then checks every listed font against the German alphabet and the digits (`testFontList`).

## Modules

| module | file | models |
|---|---|---|
| `Strings` | strings.dfy | Python's `str(n)`, `';'.join`, `str.endswith`, `str.strip()`, string order |
| `Utf8` | utf8.dfy | UTF-8 encoding (`str.encode("utf-8")`) and a strict decoder, with the round trip |
| `Store` | store.dfy | an HDF5 group: datasets with payloads and attributes, updated in place |
| `Common` | common.dfy | common.py |
| `AddMoreData` | add_more_data.dfy | add_more_data.py |
| `GenMore` | gen_more.dfy | gen_more.py |
| `UpdateFreq` | update_freq.dfy | update_freq.py |
| `TestFonts` | test_fonts.dfy | test_fonts.py |

## Modelling decisions

Anything outside the code becomes a parameter of the operation:

- the image decoder (`load`), in the merge;
- the renderer (`synth`);
- the console input (`reply`);
- font loading and glyph rendering (`Fonts`).

Each loop statement in the source is a `method` with a `while` loop, proved against a partner that states what the loop computes:

- the merge, write, main and font loops are proved equal to recursive functions that fold the same steps (`MergeAll`, `Persist`, `RunTo`, `GlyphsTo` and `FontsTo`), and lemmas about those functions state what the loops promise;
- the counting loops of update_freq.py:18-20 (`CountChars`, `CountLine`) keep the `Counted` invariant: the counts are the multiset of the stripped text, and the total is its length;
- the normalisation loop of update_freq.py:24-25 (`Shares`) is proved to leave every key at the closed form `c[k] / cnt`;
- the three glyph scans of test_fonts.py:47-65 (`ScanRow`, `ScanColumn`, `ScanBox`) are proved to answer the quantified predicates `RowInk`, `ColumnInk` and `BoxInk`, and `GlyphInFont` to equal `GlyphVerdict`.

The two list comprehensions, gen_more.py:56 and test_fonts.py:137, are the functions `EncodeAll` and `FontPaths`. They are functions rather than methods because the source builds each list in one expression, with no loop statement.

Behaviour of the code that the model keeps as written:

- **Skip check.** The check at gen_more.py:90-91 compares the bare image name with the keys written so far. Those keys have the form `<name>_<i>`. The output file is opened with `'w'` (line 70), so the check never finds a result from an earlier run, and a second run does not resume the first. Within one run it can skip a key by mistake: with image names `a` and `a_0`, the entry `a_0` written for `a` makes the run skip the image `a_0` (`SkipFiresWithinRun`). When every name ends with `.jpg`, as the merge produces them, it never fires (`SkipNeverFiresForJpg`).
- **Start index.** `start_idx` is fixed at 2300 (gen_more.py:80). A dataset with at most 2300 names produces an empty output (`FewImagesNoOutput`). The scenario lemmas `SkipFiresWithinRun` and `ScenarioABC` use a window that starts at index 0, so that a few names suffice.
- **Partial seg entries.** In add_more_data.py:108-110 the `seg` dataset is created before its `area` and `label` attributes are copied. A mask entry that lacks an attribute therefore leaves a `seg` entry with only the attributes copied before the KeyError (`SegCopy`).
  - A name absent from the depth file still keeps its `image` entry: line 98 runs before the try at line 101. This follows the code, not a reading where incomplete names are dropped.
  - Such an entry later fails to load in gen_more.py (`LoadAfterMerge`).
- **Exceptions in `glyphInFont`.** Only UnicodeError is caught (test_fonts.py:67). Any other exception of `render`, such as `pygame.error`, escapes and ends `testFontList`. So does the IndexError `get_at` raises outside the bitmap. That happens exactly for a bitmap of height 0 and width at least 4, or width 0 and height at least 4 (`GlyphVerdict`, `FontsAborted`).
- **Division by zero in update_freq.py.** The division at line 25 can fail only when there are keys but a zero total. Counting never produces that state (`CountChars`, `CharModel`).

## Model

| member | source | states |
|---|---|---|
| Strings.NatToStringValue | gen_more.py:48 | the decimal text of `i` used in `"%s_%d"` reads back as `i` |
| Strings.NatToStringInjective | gen_more.py:48 | distinct indices give distinct decimal texts |
| Strings.IntToStringInjective | common.py:23 | `str(num)` is injective on integers |
| Strings.Strip | update_freq.py:19 | `strip()` returns the slice of the line that follows its leading whitespace and precedes its trailing whitespace, and that slice neither starts nor ends with whitespace |
| Strings.SortedDistinct | gen_more.py:75 | a strictly sorted name list has no repeated name |
| Utf8.DecodeEncode | gen_more.py:56 | decoding the UTF-8 encoding of a string gives the string back |
| Utf8.DecodeAllEncodeAll | gen_more.py:55-57 | the stored `txt` list decodes element by element to the rendered words, same length and order |
| Store.Group.CreateDataset | gen_more.py:49 | `create_dataset` adds a fresh dataset, and fails without change when the name exists |
| Store.Group.SetAttr | gen_more.py:50-51 | setting an attribute replaces that one attribute of that one dataset |
| Common.ColorCodes | common.py:8-17 | the nine colour constants are the distinct codes 30 to 38, in order |
| Common.Colorize | common.py:19-25 | the appended attribute list is formatted as `ESC[<code>[;1]m<s>ESC[0m`; the length is the text's plus the code's plus 7 (plus 2 for bold) |
| Common.ParseColorize | common.py:25 | the coloured string parses back to the code text, the bold flag and the original text |
| Common.ColorizedInjective | common.py:19-25 | equal coloured strings come from equal code, bold flag and text |
| Common.ColorizedPlain | common.py:21-25 | without flags the result is `ESC[<num>m<s>ESC[0m`; highlight uses `num + 10`; bold appends `;1` |
| Common.TimedOutMessage | common.py:44 | the timeout message is red highlighted (code 41) `   *** Timed out!` |
| AddMoreData.SegCopyAttrs | add_more_data.py:108-110 | a seg entry carries the mask's payload, `area` and `label` whenever the mask has both |
| AddMoreData.AddMoreDataIntoDset | add_more_data.py:77-119 | the three groups after the loop equal the fold of the merge step over the listing, starting empty |
| AddMoreData.MergeName | add_more_data.py:91-113 | one loop iteration changes the three groups exactly as one merge step |
| AddMoreData.CopyMask | add_more_data.py:108-110 | the seg group gains the mask entry as copied up to the first missing attribute |
| AddMoreData.MergeImage | add_more_data.py:90-98 | an image entry exists exactly for the listed `.jpg` names, with the decoded image |
| AddMoreData.MergeDepth | add_more_data.py:101-105 | a depth entry exists exactly for listed `.jpg` names in the depth file, with its payload |
| AddMoreData.MergeSeg | add_more_data.py:101-113 | a seg entry exists exactly for listed `.jpg` names in both the depth file and the mask group |
| AddMoreData.MergeInclusion | add_more_data.py:90-113 | keys(seg) are within keys(depth), which are within keys(image) |
| AddMoreData.DepthWithoutMask | add_more_data.py:101-113 | a name with depth but no mask keeps its depth entry and gets no seg entry |
| AddMoreData.MergeIgnoresNonJpg | add_more_data.py:90-91 | merging a listing equals merging only its `.jpg` names |
| AddMoreData.MaskWithoutDepth | add_more_data.py:96-105 | a `.jpg` name with a mask but no depth ends up in `image` only |
| GenMore.DName | gen_more.py:48 | an output key is longer than the image name plus `_` and ends with a digit |
| GenMore.StemOfDName | gen_more.py:48 | the image name is the text of a key before its last `_` |
| GenMore.DNameInjective | gen_more.py:48 | `(name, i) -> name_i` is injective |
| GenMore.EntryRoundTrip | gen_more.py:49-57 | a stored entry holds the result's image and boxes, and its `txt` decodes to the result's words |
| GenMore.AddedAt | gen_more.py:44-49 | result `i` is stored under `<imgname>_<i>` |
| GenMore.AddedKeys | gen_more.py:44-49 | every key written is `<imgname>_<i>` for a result index `i` |
| GenMore.PersistStopped | gen_more.py:45-49 | after a failed write the rest of the results are not written |
| GenMore.PersistFresh | gen_more.py:44-57 | with no name taken, `add_res_to_db` adds exactly `len(res)` entries and changes nothing else |
| GenMore.PersistGrows | gen_more.py:44-57 | the write loop keeps every existing entry unchanged, and every key it adds is `<imgname>_<i>` for a result index `i < len(res)` |
| GenMore.AddResToDb | gen_more.py:39-57 | the group and success flag after the method equal the fold of the write loop |
| GenMore.Load | gen_more.py:95-105 | a key loads iff it has image, depth and seg records, and the seg record has `area` and `label` |
| GenMore.LoadAfterMerge | gen_more.py:95-105 | a merged key loads iff it had depth, a mask, and both mask attributes |
| GenMore.ProcessOne | gen_more.py:87-129 | one iteration on the open group: skip, load, render, write, then the quit prompt |
| GenMore.QuitStays | gen_more.py:123-125 | after `break` no later index runs |
| GenMore.GenMain | gen_more.py:63-131 | NUM_IMG below 0 becomes N; the output is the fold over indices 2300 to min(NUM_IMG, N) |
| GenMore.RunStep | gen_more.py:84-129 | each iteration keeps every entry unchanged and adds only keys `<name>_<i>` for the current name |
| GenMore.RunKeys | gen_more.py:84-129 | every output key is `<name>_<i>` for the name at an already visited index and some `i` |
| GenMore.RunGrows | gen_more.py:84-129 | the group only grows: an entry once written stays unchanged |
| GenMore.NoCollision | gen_more.py:90-120 | with sorted distinct names no write of a run collides, and each write succeeds |
| GenMore.StepEffect | gen_more.py:87-129 | an index adds nothing when skipped, unloadable, failed or empty, else exactly `<name>_0..<name>_<len-1>` |
| GenMore.NoVizNoQuit | gen_more.py:123-125 | without visualisation the loop runs to the end of the window |
| GenMore.SkipNeverFiresForJpg | gen_more.py:90-91 | when every name ends with `.jpg` the skip check never fires |
| GenMore.SkipFiresWithinRun | gen_more.py:90-91 | for names `a` and `a_0`, over a window starting at index 0, the entry for `a` makes the run skip `a_0` |
| GenMore.ScenarioABC | gen_more.py:80-129 | results of sizes 2, 0 and 1 for A, B and C leave exactly A_0, A_1 and C_0 over a window starting at index 0; the window from 2300 writes nothing |
| GenMore.FewImagesNoOutput | gen_more.py:76-84 | with at most 2300 image names the window is empty, so the output group stays empty |
| UpdateFreq.CountChars | update_freq.py:15-20 | `c` counts each character of the stripped lines exactly; `cnt` is their total length and the sum of the counts; `cnt` is 0 iff `c` is empty |
| UpdateFreq.CountLine | update_freq.py:18-19 | `c += Counter(line.strip())` counts the line's characters on top of the earlier ones |
| UpdateFreq.CountNext | update_freq.py:18-20 | one line adds its stripped text to both the counts and the total |
| UpdateFreq.CountOne | update_freq.py:19 | one more character: the count goes up by one, and a new key joins the key order at its end |
| UpdateFreq.CountedEmpty | update_freq.py:15-20 | the Counter is empty iff the counted text is empty |
| UpdateFreq.Normalise | update_freq.py:24-25 | fails (ZeroDivisionError) iff there are keys and a zero total; otherwise each count becomes count / total, keys unchanged |
| UpdateFreq.Shares | update_freq.py:24-25 | the in-place loop leaves every key mapped to its count divided by the total |
| UpdateFreq.SumReals | update_freq.py:24-25 | the frequencies sum to the summed counts divided by the total |
| UpdateFreq.FreqBounds | update_freq.py:25 | every frequency lies in (0, 1] |
| UpdateFreq.CharModel | update_freq.py:15-28 | the model maps exactly the occurring characters to occurrences / total; it sums to 1 when there is text and is empty when there is none |
| TestFonts.GetAt | test_fonts.py:48 | `get_at` gives the pixel inside the bitmap and fails outside it |
| TestFonts.BoxShape | test_fonts.py:35-43 | the box spans `2*(w//4)` by `2*(h//4)` pixels around the centre, and is empty below 4 pixels |
| TestFonts.ProbesInBounds | test_fonts.py:35-63 | for `w, h > 0` every probed pixel is inside the bitmap, so the answer is never an error |
| TestFonts.BoxDecides | test_fonts.py:47-65 | for bitmaps of at least 4 x 4 the verdict is whether the box holds ink |
| TestFonts.BorderOnlyRejected | test_fonts.py:23-25 | a glyph drawn only outside the box (the missing-glyph border) is judged unsupported |
| TestFonts.InkInBoxAccepted | test_fonts.py:59-65 | one ink pixel inside the box makes the glyph supported |
| TestFonts.ScanRow | test_fonts.py:47-50 | the row scan finds ink iff the row holds ink within the box's columns; it fails iff it probes outside the bitmap |
| TestFonts.ScanColumn | test_fonts.py:53-57 | the column scan finds ink iff the centre column holds ink within the box's rows; it fails iff the width is 0 and the height is at least 4 |
| TestFonts.ScanBox | test_fonts.py:60-65 | the box scan, whose inner `break` only ends a row, answers whether the box holds ink |
| TestFonts.GlyphInFont | test_fonts.py:22-71 | a UnicodeError gives false; any other exception of `render` escapes; IndexError exactly for the degenerate sizes; otherwise ink on the centre row, the centre column or in the box |
| TestFonts.SymbolsListed | test_fonts.py:20 | the symbol list is the 43 characters a-z, ä ö ü ß Ä Ö Ü, 0-9 |
| TestFonts.FontPath | test_fonts.py:137 | `osp.join('data', 'fonts', name)` with POSIX separators: the path ends with the name, starts with `/` exactly when the name does, and otherwise starts with `data/fonts/` |
| TestFonts.FontPathsAt | test_fonts.py:137 | font path `i` is line `i` stripped and joined |
| TestFonts.CheckFont | test_fonts.py:145-151 | one font's glyph loop equals the fold over the symbols |
| TestFonts.FontStep | test_fonts.py:141-151 | a font that does not load aborts; otherwise its glyphs are checked |
| TestFonts.TestFontList | test_fonts.py:131-154 | the outcome equals the fold over the listed fonts |
| TestFonts.RunFontList | test_fonts.py:139-153 | the loop over the font paths equals the fold |
| TestFonts.GlyphsAborted | test_fonts.py:145-151 | one font's scan aborts iff some symbol's check raises an exception (IndexError, or a render error other than UnicodeError) |
| TestFonts.GlyphsUnsupported | test_fonts.py:145-151 | without an abort the flag is set iff it was already, or some symbol is judged missing |
| TestFonts.GlyphsPrinted | test_fonts.py:145-151 | without an abort the font's path is printed iff some symbol is judged missing |
| TestFonts.FontsAborted | test_fonts.py:141-151 | the run aborts iff some font fails to load or some check of its glyphs raises an exception |
| TestFonts.FontsUnsupported | test_fonts.py:139-151 | without an abort `unsupported` is true iff some font misses some symbol |
| TestFonts.FontsPrinted | test_fonts.py:145-151 | without an abort exactly the paths of fonts missing a symbol are printed |
| TestFonts.MessageNotAPath | test_fonts.py:137-153 | no font path equals the closing message |
| TestFonts.AllSupportedIff | test_fonts.py:139-153 | the closing message prints iff every font loads and draws every symbol |

## Left out

- `download_preproc` (add_more_data.py:30-73): network download, tar extraction and `sys.exit` are all I/O.
- `time_limit` (common.py:39-59): SIGALRM and thread interrupts are concurrency. Only its outcome is modelled, as a `Failure` a renderer call may end in.
- `RendererV3.render_text` (gen_more.py:82, 113) belongs to `synthgen`, which is not part of this model. It is the `synth` parameter of a job.
- Image decoding and resizing with PIL, and the depth transpose and channel select (gen_more.py:95-110, add_more_data.py:96). They are library numerics on pixel arrays; the model passes payloads through unchanged.
- Failures of the image decoder in the merge: `load` is total, so an unreadable `.jpg` never aborts the run in the model.
- h5py file semantics beyond one group's names, payloads and attributes. Not modelled: the fixed-width byte-string conversion of `txt`, attribute size limits, file closing.
- All `print`, `colorprint`, `warn` and `error` output, except the lines `testFontList` prints, and the `traceback` report.
- `testFonts` (test_fonts.py:74-128): a pygame window and event loop, i.e. UI.
- Real glyph rasterisation: a rendered glyph is given as its surface.
- invert_font_size.py: font measurements through pygame and a floating-point least-squares fit.
- File reading in update_freq.py. The corpus is given as its list of lines, and the pickle dump is not modelled.
- File reading and pygame set-up in test_fonts.py. `TestFontList` gets the lines of `fontlist.txt` (lines 136-137) as a parameter, so a missing or unreadable list file is not modelled. `pygame.init()` and `pygame.quit()` (lines 133, 154) are library set-up and tear-down.
- UpdateFreq.CountChars: the key order is proved to list every key once, but not to be the order of first occurrence.
- UpdateFreq.Normalise: exact rational division instead of IEEE doubles, so rounding is not modelled.
- GenMore.GenMain: `sorted(db['image'].keys())` is a library call. The model takes its result as the job's name list and requires it to be strictly sorted and to hold exactly the image keys.
- AddMoreData.AddMoreDataIntoDset: assumes Windows. Line 92 joins the image path with a backslash, which names the file only there. On POSIX `os.path.getsize` at line 94 raises FileNotFoundError for the first `.jpg`, and the merge stops; the model's `load` instead reads every listed image.
- TestFonts.FontPath: assumes POSIX, i.e. `posixpath.join` with `/`. Windows `ntpath.join` separates with `\` and also treats drive names and `\`-rooted names as absolute; that is not modelled.
- `INSTANCE_PER_IMAGE` (1) and `SECS_PER_IMG` (5) in gen_more.py are only passed to the renderer, so they are part of the `synth` oracle and have no constant of their own.
- GenMore.AddResToDb: `str.encode("utf-8", "ignore")` is modelled as plain UTF-8 encoding. Strings here are sequences of Unicode scalar values, so nothing is ever ignored.
- Python's `str.strip()` on the whole Unicode whitespace class is followed as listed in `Strings.IsSpace`. Other `str.isspace` details of the Unicode database are not modelled.
