# PhotoManager core in Dafny

PhotoManager is a batch tool. It finds the pictures in a source folder,
shrinks and re-encodes each of them, and writes it to a destination folder
under a name built from a user pattern: source folder name, capture day, a
per-day counter and the original stem. This project models the non-GUI
core, `photomanager_core.py`, and proves what that code promises:

- which files are picked up;
- how a capture date is chosen;
- how names are rendered, numbered and made unique;
- how the output format and save options are derived;
- how the batch loop isolates failures and reports progress.

Layout, one module per file:

| file | module | covers |
|---|---|---|
| `wrappers.dfy` | `Wrappers` | `Option` and `Result` |
| `text.dfy` | `Text` | decimal rendering with zero padding (`{n:03d}`), ASCII case mapping, `str.replace` with a count |
| `pathnames.dfy` | `PathNames` | `pathlib` suffix, stem, final component and joining |
| `timestamp.dfy` | `Timestamp` | `%Y%m%d` day keys, the EXIF `DateTimeOriginal` search, the three-tier `exif_datetime` |
| `sources.dfy` | `Sources` | what the image library, the file system and the clock report about one source file |
| `discovery.dfy` | `Discovery` | `SUPPORTED_EXT`, `_iter_images`, `gather_images` |
| `template.dfy` | `Template` | the `str.format` subset the rename patterns use |
| `naming.dfy` | `Naming` | `_build_base_name`: counter bump, render, fallback |
| `allocator.dfy` | `Allocator` | `unique_path` |
| `transcode.dfy` | `Transcode` | `ensure_rgb`, the extension mapping, the save keyword arguments |
| `batch.dfy` | `Batch` | `process_images` |

How the code's shape is kept:

- Code that mutates state is modelled as methods, each proved against a specification function:
  - `Naming.BuildBaseName` has no loop. It returns the counter map as `setdefault` plus `+= 1` leave it.
  - The other methods below are `while` loops:
    - `Allocator.UniquePath` is the `while True` probe loop.
    - `Timestamp.FindDateTimeOriginal` is the scan over EXIF items.
    - `Batch.ProcessAll` is the per-file loop of `process_images`, and `Batch.ProcessFile` is its body. `Batch.ProcessImages` chooses the list and handles the empty one.
- The batch is specified by `Batch.Run`, a fold of `Batch.Step` over the image list.
- The disk is the set of existing paths.
- Each source file is a `Sources.SourceFile` record. It holds what Pillow, `stat` and the clock would report for that file, plus how far processing gets before an exception (`Outcome`). So one batch is a deterministic function of its inputs.

Behaviour of the code that is easy to miss, modelled as the code has it:

- **Extension.** `fmt.upper()` is compared with `"JPEG"` alone; every other format gives `"." + fmt.lower()`. So `"JPG"` also maps to `".jpg"`, and the extension is `.jpg` exactly when the upper-cased format is `JPEG` or `JPG` (`Transcode.ExtensionOfFormat`).
- **JPEG subsampling.** The `subsampling` argument is added only for `JPEG` itself, not for `JPG`.
- **Counters.** The counter is bumped before the risky resize and save steps. A file that fails after naming still uses up its number. A file that fails at open or transpose does not.
- **Uniqueness.** Output paths are unique only against files that exist. A path chosen for a file whose save then fails is not reserved.

## Model

| member | source | states |
|---|---|---|
| Discovery.IterImagesMembers | photomanager_core.py:71-80 | a tree entry is yielded iff it is a regular file, its lower-cased suffix is in the supported set, and it is visited (any depth when recursive, top level otherwise); none are invented |
| Discovery.GatherImagesMembers | photomanager_core.py:83-85 | a file is in the image list iff it belongs to an entry the walk visits that is a regular file with a supported suffix |
| Discovery.SupportedIgnoresCase | photomanager_core.py:75 | two names that agree up to case are both accepted or both rejected |
| Discovery.SupportedByEnding | photomanager_core.py:75 | `IsSupported` holds iff the name ends, up to ASCII case, in one of the seven extensions of line 19 with at least one character before it |
| Discovery.IterImagesConcat | photomanager_core.py:71-80 | `IterImages` of a walk split in two is the yield of the first part followed by that of the second, so yielded entries keep walk order |
| Discovery.GatherImagesConcat | photomanager_core.py:83-85 | `GatherImages` keeps walk order the same way: the list of a split walk is the concatenation of the parts' lists |
| Discovery.SupportedExamples | photomanager_core.py:19 | `IMG_0001.JPG` and `scan.Tiff` are accepted; `.jpg` (a dot file with no suffix) and `photo.gif` are not |
| PathNames.Suffix | photomanager_core.py:75 | the suffix is empty or starts with the last dot, which is not the first character and not the last; stem plus suffix gives back the name |
| PathNames.FinalComponent | photomanager_core.py:159 | the folder name contains no slash, is never `.`, and is no longer than the path |
| PathNames.FinalComponentOfName | photomanager_core.py:159 | a proper name (non-empty, not `.`, no slash) after an empty or slash-ended prefix is the folder name |
| PathNames.FinalComponentTrailingSlash | photomanager_core.py:159 | a trailing slash does not change the folder name |
| PathNames.FinalComponentTrailingDot | photomanager_core.py:159 | a trailing `/.` component does not change the folder name |
| PathNames.FinalComponentEmpty | photomanager_core.py:159 | `""`, `.` and `/` have the empty name, as `Path(...).name` gives |
| PathNames.FinalComponentOfJoin | photomanager_core.py:159 | the name of a folder joined with a proper name is that name |
| PathNames.JoinInjective | photomanager_core.py:122 | joining names to the same folder is injective |
| Timestamp.DateTimeOriginal | photomanager_core.py:49-54 | returns the text of the first `DateTimeOriginal` entry whose value is a string; None iff there is no such entry |
| Timestamp.FindDateTimeOriginal | photomanager_core.py:51-54 | the scan over EXIF items returns exactly `DateTimeOriginal` |
| Timestamp.ExifDatetime | photomanager_core.py:46-61 | the EXIF tier is used iff a `DateTimeOriginal` string parses after its first two colons become dashes; the mtime tier is used iff that fails and `stat` succeeds; otherwise the clock is used; each tier gives its own date |
| Text.ReplaceFirst | photomanager_core.py:53 | same length as the input; position i is replaced iff it holds the old character and fewer than n earlier occurrences precede it |
| Timestamp.DayKey | photomanager_core.py:95 | a day key is made of decimal digits only and has at least eight of them |
| Timestamp.EarlierTierWins | photomanager_core.py:46-61 | `ResolveDate`: once EXIF yields a date, the modification time and the clock play no role; once the modification time is known, the clock plays none; a clock-tier date follows the clock |
| Timestamp.DayKeyShape | photomanager_core.py:95 | a day key in range is 8 decimal digits |
| Timestamp.DayKeyInjective | photomanager_core.py:95 | two in-range dates have the same day key iff they are equal |
| Text.PadNatRoundTrip | photomanager_core.py:128 | a zero-padded number reads back as the number, at any width |
| Text.PadNatInjective | photomanager_core.py:128 | two numbers padded to the same width are equal iff the numbers are |
| Text.PadNatExactWidth | photomanager_core.py:113 | numbers below 10^w are padded to exactly w digits |
| Text.PadNatKeepsAllDigits | photomanager_core.py:113 | 7 pads to `007`; 1000 stays `1000` (a width is a minimum, not a truncation) |
| Template.RenderEscape | photomanager_core.py:108 | a text with every brace doubled renders to the text itself |
| Template.RenderBraceFree | photomanager_core.py:108 | brace-free text renders to itself |
| Template.RenderField | photomanager_core.py:108 | a replacement field followed by the rest of the pattern renders iff both parts do, to the field's value followed by the rest |
| Template.UnknownFieldFails | photomanager_core.py:108 | a field name other than folder/date/counter/orig makes formatting fail (the `KeyError`) |
| Template.CounterField | photomanager_core.py:108 | for any ASCII digit string N, the fields `counter:0Nd` and `counter:0N` format iff int(N) is at most `sys.maxsize` (2^63 - 1), and then give the counter zero-padded to at least int(N) digits |
| Template.FormatInt | photomanager_core.py:108 | whatever integer spec is accepted, the counter's text is all decimal digits and reads back as the counter |
| Template.Field | photomanager_core.py:108 | a field formats only when its name (the text before the first colon) is one of `counter`, `folder`, `date`, `orig` |
| Template.PlainField | photomanager_core.py:108 | a field without a spec gives the context value of its name, the counter in decimal |
| Template.StringFieldSpec | photomanager_core.py:108 | a string field formats iff its spec is empty or `s`, and then gives the value unchanged |
| Template.CounterSpec | photomanager_core.py:108 | a `counter:` field is formatted by its spec as an integer |
| Template.RenderConcat | photomanager_core.py:108 | `Render` of `a + b`, when `a` renders, succeeds iff `b` renders, with the two outputs concatenated |
| Naming.BaseName | photomanager_core.py:106-113 | the name is never empty; it is the rendered pattern when rendering succeeds with a non-empty text, and the fixed `folder_date_NNN` form otherwise |
| Naming.BuildBaseName | photomanager_core.py:88-113 | the day key's counter becomes its old value (0 if absent) plus one, no other key changes and one key at most is added; the name is `BaseName` of the pattern with that new counter, the day key, the folder name and the stem, and is never empty |
| Naming.DefaultPatternIsFallback | photomanager_core.py:40 | the default pattern renders exactly to the fallback form, so the default and the fallback agree |
| Naming.FallbackInjective | photomanager_core.py:113 | `Fallback` names of one folder and day are equal iff their counters are |
| Naming.UnknownPlaceholderFallsBack | photomanager_core.py:107-113 | an unknown placeholder after any prefix that renders, and before any rest, gives the fallback name, not an error |
| Naming.TooWideCounterFallsBack | photomanager_core.py:107-113 | a counter width above `sys.maxsize` makes `format` raise, so the name is the fallback |
| Naming.UnknownAfterKnownFallsBack | photomanager_core.py:107-113 | `{folder}_{foo}` gives the fallback name although its first field is known |
| Naming.UnclosedBraceFallsBack | photomanager_core.py:107-113 | a pattern made of `{` and brace-free text that is never closed gives the fallback name |
| Allocator.CandidateInjective | photomanager_core.py:128 | different probe numbers give different candidate paths |
| Allocator.CandidateNotPlain | photomanager_core.py:122-128 | no numbered candidate equals the plain path |
| Allocator.TakenBound | photomanager_core.py:126-131 | if the first n candidates all exist, the disk holds at least n paths, so the probe loop ends |
| Allocator.FirstFreeIndex | photomanager_core.py:126-131 | when candidates 1 to i-1 exist, the probe number reached from i is at least i and its candidate does not exist |
| Allocator.FirstFreeIndexIsFirst | photomanager_core.py:126-131 | every candidate numbered below the one the probe loop stops at exists, so no free candidate is skipped |
| Allocator.Allocate | photomanager_core.py:116-131 | the chosen path does not exist |
| Allocator.AllocateIsAllocation | photomanager_core.py:116-131 | the chosen path does not exist; it is the plain path when that is free, and otherwise the lowest-numbered free candidate |
| Allocator.AllocationUnique | photomanager_core.py:116-131 | there is one allocation only for a given disk |
| Allocator.AllocateAfterCreate | photomanager_core.py:122-130 | with plain and `_001` free, the first call gives the plain path and, once that file exists, the second gives `_001` |
| Allocator.UniquePath | photomanager_core.py:116-131 | the probe loop returns the allocation: a path not on disk, plain if free, otherwise the minimal free `_NNN` candidate |
| Transcode.EnsureRgb | photomanager_core.py:64-68 | RGBA, LA, P and CMYK become RGB; every other mode is left as it is; the result is never one of the converted modes |
| Transcode.EnsureRgbIdempotent | photomanager_core.py:64-68 | converting twice is the same as converting once |
| Transcode.SaveFormat | photomanager_core.py:163 | the format name has the configured name's length, no lower-case ASCII letter, and the same lower-cased form |
| Transcode.Extension | photomanager_core.py:163-167 | the extension starts with a dot |
| Transcode.ExtensionOfFormat | photomanager_core.py:163-167 | the extension is `.jpg` iff the upper-cased format is JPEG or JPG; otherwise it is a dot followed by the lower-cased format |
| Transcode.ExtensionIgnoresCase | photomanager_core.py:163 | formats that agree up to case give the same extension |
| Transcode.ExtensionExamples | photomanager_core.py:163-167 | `JPEG` and `jpeg` give `.jpg`, `Png` gives `.png`, `WEBP` gives `.webp` |
| Transcode.SaveKwargs | photomanager_core.py:184-194 | format, quality and `optimize=True` are always set; subsampling is `4:2:0` iff the format is JPEG; EXIF and ICC are carried iff metadata is kept and the source block is non-empty, and then unchanged |
| Batch.Run | photomanager_core.py:169-206 | one result per file; the disk only grows |
| Batch.DiskSize | photomanager_core.py:182-196 | the disk grows by exactly one path per file whose save completes |
| Batch.RunDisk | photomanager_core.py:182-196 | the disk after a batch is the disk before it plus the output paths of the saved files, and nothing else |
| Batch.RunPrefix | photomanager_core.py:169-206 | processing more files does not change the results of the files already processed |
| Batch.ResultIsStep | photomanager_core.py:169-202 | the result of the j-th file is what processing it gives in the state the first j files left behind |
| Batch.CountersAfterRun | photomanager_core.py:160-176 | after a prefix of the list, each day's counter is the number of files named under that day |
| Batch.Numbering | photomanager_core.py:170-202 | a file is left unnumbered iff it fails before naming, and is saved iff its save completes; a named file gets its day key and one plus the number of earlier named files of that day |
| Batch.NumbersIncrease | photomanager_core.py:95-97 | two named files of the same day get strictly increasing numbers in list order |
| Batch.RunFresh | photomanager_core.py:182-196 | a saved file's path is neither on the original disk nor the path of an earlier saved file |
| Batch.WrittenPathsAreFresh | photomanager_core.py:182-196 | each written path existed neither before the batch nor as an earlier file's output, so no file is overwritten |
| Batch.DiskContents | photomanager_core.py:182-196 | a path exists after the batch iff it existed before or some file was saved to it |
| Batch.FileOutcomeCases | photomanager_core.py:170-202 | `FileOutcome` of one file: no number iff it cannot be opened; saved iff the save completes; otherwise its day key and the day's counter plus one; a saved path is the allocation on the current disk |
| Batch.StepCounters | photomanager_core.py:170-202 | `Step` adds one to the counter of a named file's day and changes no other counter; the disk gains exactly one path iff the save completes |
| Batch.ProcessFile | photomanager_core.py:170-202 | one loop iteration leaves counters, disk and results as `Step` says |
| Batch.TicksShape | photomanager_core.py:204-206 | after m files the callback has been called m times, the k-th time with (k, total) |
| Batch.ProcessAll | photomanager_core.py:169-206 | the loop visits every file in order, failing ones included; its callback calls, results and final disk are those of `Run` |
| Batch.ProcessImages | photomanager_core.py:134-208 | returns the length of the image list; an empty list gives no progress, results or writes; otherwise the callback receives (k, total) for k = 1..total in order, failures included; results and final disk are those of `Run` |

## Left out

- The Tk GUI (`photomanager_gui.py`) and its worker thread are not part of this model.
- Pillow's `open`, `exif_transpose`, `convert`, `thumbnail` (LANCZOS resize to the maximum box) and `save` are not modelled as image operations. Their observable effects are fields of `Sources.SourceFile`: mode, EXIF items, info blocks and how far processing gets. The resize arithmetic is not modelled.
- `datetime.fromisoformat` is the parameter `parse`. `fromtimestamp(stat().st_mtime)` and `now()` are the per-file fields `mtime` and `now`. Times of day are dropped, since only the day key is used.
- The mapping from EXIF tag ids to names through `ExifTags.TAGS` is taken as given: entries carry their tag name.
- `dst_dir.mkdir` and the fatal error it can raise are not modelled. The disk is a set of path strings, and `exists` is membership.
- Filesystem walk order and symbolic links are not modelled: the walk is an input sequence of entries.
- The race between the `exists` test and the later `save` is not modelled, nor is another process writing to the destination.
- A partial file that Pillow may leave behind when a save fails midway is not modelled: a failed save leaves the disk unchanged.
- Case-insensitive file systems are not modelled: path equality is exact string equality.
- PathNames.Join: the plain `folder/name` concatenation does not model `pathlib` normalisation, for example a rendered name that starts with `/` or contains `..`.
- Text.Lower and Text.Upper map ASCII letters only. This leaves the supported-suffix test unchanged, but not the upper-casing of exotic format names.
- Timestamp.DayKey pads the year to four digits. `strftime('%Y')` for years before 1000 is platform-dependent.
- Template.Render: conversions (`!r`, `!s`), attribute and index access, nested fields, and format specs other than `""`/`s` for strings and `""`/`d`/`0N`/`0Nd` for the counter are not implemented. The model treats them as render failures, so Naming.BaseName falls back where Python might render a name.
- `im.close()` in the `finally` is not modelled: the model has no open file handles or other resources to release.
- An exception raised by `progress_cb` is not modelled. That call is outside the `try`, so such an exception would end the batch early. The model treats the callback as one that records its arguments and never raises.
- Template.FormatInt: a format width is read from ASCII digits only. CPython also accepts other Unicode decimal digits there: `{counter:0٣d}` gives `001`, while the model treats that spec as invalid and falls back. The width limit is that of a 64-bit build, where `sys.maxsize` is 2^63 - 1.
- Paths are POSIX strings with `/` as the only separator. Windows paths are not modelled: backslashes, drive letters, and `Path.name` and joins under Windows rules.
- An exception from `iterdir()` or `rglob` while listing the source folder is not modelled. That happens outside the per-file `try`, so it would end the whole run; in the model the walk is a given sequence and always succeeds.
- The `[ERREUR]` log line is not modelled as text: the `NotOpened`/`NotSaved` results stand for it.
- A missing `progress_cb` (`None`) is not separately modelled: `progress` is the call sequence it would receive, as pairs of unbounded integers.
- PhotoConfig field ranges are not preconditions, because `process_images` does not check them. The GUI validates widths, heights and quality before calling; that validation is not part of this model.
