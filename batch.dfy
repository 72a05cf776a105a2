/**
 * The batch orchestrator (`process_images`): one pass over the image list in
 * order, with per-day counters, per-file failure isolation and a progress event
 * after every file. The specification is `Run`, a fold of `Step` over the list;
 * the lemmas below state what that fold guarantees.
 */
module Batch {
  import opened Wrappers
  import opened PathNames
  import opened Timestamp
  import opened Sources
  import opened Discovery
  import opened Template
  import opened Naming
  import opened Allocator
  import opened Transcode

  /** `PhotoConfig`. The maximum sizes only feed the resize, which the image library does. */
  datatype Config = Config(
    sourceDir: string,
    destDir: string,
    maxWidth: int,
    maxHeight: int,
    quality: int,
    stripMetadata: bool,
    recursive: bool,
    renamePattern: string,
    outputFormat: string
  )

  /**
   * What became of one file: it could not be opened (no number used); it was named
   * and then failed (its number is used up); or it was written to `path`.
   */
  datatype FileResult =
    | NotOpened
    | NotSaved(dayKey: string, number: nat, base: string)
    | Saved(dayKey: string, number: nat, base: string, path: string, mode: string, options: SaveOptions)

  /** Whether processing of the file reaches the name builder. */
  predicate Named(f: SourceFile) {
    f.outcome != FailsBeforeNaming
  }

  /** The day key the file is counted under. */
  function FileKey(f: SourceFile, parse: string -> Option<Date>): string {
    DayKey(ResolveDate(f.exif, parse, f.mtime, f.now).date)
  }

  /** The loop state of `process_images` together with the disk. */
  datatype RunState = RunState(counters: map<string, nat>, disk: set<string>, results: seq<FileResult>)

  /**
   * What one iteration of the loop over the image list does with file `f`, given the
   * counters and the disk left by the files before it.
   */
  ghost function FileOutcome(cfg: Config, parse: string -> Option<Date>, st: RunState, f: SourceFile): FileResult {
    if !Named(f) then NotOpened
    else
      var key := FileKey(f, parse);
      var n := Count(st.counters, key) + 1;
      var base := BaseName(cfg.renamePattern, Context(FinalComponent(cfg.sourceDir), key, n, Stem(f.name)));
      if f.outcome == FailsAfterNaming then NotSaved(key, n, base)
      else
        var fmt := SaveFormat(cfg.outputFormat);
        Saved(key, n, base, Allocate(cfg.destDir, base, Extension(fmt), st.disk), EnsureRgb(f.mode),
              SaveKwargs(fmt, cfg.quality, cfg.stripMetadata, f.exifBlock, f.iccProfile))
  }

  /**
   * One iteration: the file's outcome is appended to the results, a named file's
   * number becomes its day's counter, and a saved file's path joins the disk.
   */
  ghost function Step(cfg: Config, parse: string -> Option<Date>, st: RunState, f: SourceFile): RunState {
    var r := FileOutcome(cfg, parse, st, f);
    RunState(if r.NotOpened? then st.counters else st.counters[r.dayKey := r.number],
             if r.Saved? then st.disk + {r.path} else st.disk,
             st.results + [r])
  }

  /**
   * One iteration on its own: a file that cannot be opened uses no number; any other
   * file takes its day's next number; only a completed save gets a path, and that path
   * is the allocation `unique_path` makes on the current disk.
   */
  lemma FileOutcomeCases(cfg: Config, parse: string -> Option<Date>, st: RunState, f: SourceFile)
    ensures FileOutcome(cfg, parse, st, f).NotOpened? <==> !Named(f)
    ensures FileOutcome(cfg, parse, st, f).Saved? <==> f.outcome == Succeeds
    ensures Named(f) ==> FileOutcome(cfg, parse, st, f).dayKey == FileKey(f, parse)
    ensures Named(f) ==> FileOutcome(cfg, parse, st, f).number == Count(st.counters, FileKey(f, parse)) + 1
    ensures FileOutcome(cfg, parse, st, f).Saved? ==>
              IsAllocation(FileOutcome(cfg, parse, st, f).path, cfg.destDir, FileOutcome(cfg, parse, st, f).base,
                           Extension(SaveFormat(cfg.outputFormat)), st.disk)
  {
    var r := FileOutcome(cfg, parse, st, f);
    if r.Saved? {
      AllocateIsAllocation(cfg.destDir, r.base, Extension(SaveFormat(cfg.outputFormat)), st.disk);
    }
  }

  /**
   * One iteration bumps the counter of the file's day when the file is named and no
   * other counter; the disk gains a path only when the save completes.
   */
  lemma StepCounters(cfg: Config, parse: string -> Option<Date>, st: RunState, f: SourceFile, key: string)
    ensures Count(Step(cfg, parse, st, f).counters, key) ==
              Count(st.counters, key) + (if Named(f) && FileKey(f, parse) == key then 1 else 0)
    ensures f.outcome != Succeeds ==> Step(cfg, parse, st, f).disk == st.disk
    ensures f.outcome == Succeeds ==> |Step(cfg, parse, st, f).disk| == |st.disk| + 1
  {
    var r := FileOutcome(cfg, parse, st, f);
    if r.Saved? {
      assert r.path !in st.disk;
    }
  }

  /** Number of files whose save completes. */
  function Succeeded(files: seq<SourceFile>): nat {
    if files == [] then 0
    else Succeeded(files[..|files| - 1]) + (if files[|files| - 1].outcome == Succeeds then 1 else 0)
  }

  /** Number of files that reach the name builder with the given day key. */
  function NamedCount(files: seq<SourceFile>, parse: string -> Option<Date>, key: string): nat {
    if files == [] then 0
    else
      var f := files[|files| - 1];
      NamedCount(files[..|files| - 1], parse, key) + (if Named(f) && FileKey(f, parse) == key then 1 else 0)
  }

  /**
   * The state after processing `files` from an empty counter map on `disk`: one result
   * per file, and the disk only grows.
   */
  ghost function Run(cfg: Config, parse: string -> Option<Date>, files: seq<SourceFile>, disk: set<string>): (st: RunState)
    ensures |st.results| == |files|
    ensures disk <= st.disk
    decreases |files|
  {
    if files == [] then RunState(map[], disk, [])
    else Step(cfg, parse, Run(cfg, parse, files[..|files| - 1], disk), files[|files| - 1])
  }

  /** The disk grows by exactly one new path per successful save. */
  lemma {:induction false} DiskSize(cfg: Config, parse: string -> Option<Date>, files: seq<SourceFile>, disk: set<string>)
    ensures |Run(cfg, parse, files, disk).disk| == |disk| + Succeeded(files)
    decreases |files|
  {
    if files != [] {
      var init := files[..|files| - 1];
      var f := files[|files| - 1];
      DiskSize(cfg, parse, init, disk);
      var st := Run(cfg, parse, init, disk);
      var r := FileOutcome(cfg, parse, st, f);
      assert Run(cfg, parse, files, disk) == Step(cfg, parse, st, f);
      assert r.Saved? <==> f.outcome == Succeeds;
      if r.Saved? {
        assert r.path !in st.disk;
      }
    }
  }

  /** The list `process_images` works on: the explicit one, or the discovered images. */
  function ImagesList(cfg: Config, images: Option<seq<SourceFile>>, tree: seq<Entry>): seq<SourceFile> {
    if images.Some? then images.value else GatherImages(tree, cfg.recursive)
  }

  /** Processing a longer list does not change what happened to the files of a prefix. */
  lemma {:induction false} RunPrefix(cfg: Config, parse: string -> Option<Date>, files: seq<SourceFile>,
                                     disk: set<string>, j: nat)
    requires j <= |files|
    ensures Run(cfg, parse, files[..j], disk).results == Run(cfg, parse, files, disk).results[..j]
    decreases |files|
  {
    if j == |files| {
      assert files[..j] == files;
    } else {
      var init := files[..|files| - 1];
      RunPrefix(cfg, parse, init, disk, j);
      assert init[..j] == files[..j];
    }
  }

  /** Processing one more file is one more `Step`. */
  lemma RunSnoc(cfg: Config, parse: string -> Option<Date>, files: seq<SourceFile>, disk: set<string>, j: nat)
    requires j < |files|
    ensures Run(cfg, parse, files[..j + 1], disk) == Step(cfg, parse, Run(cfg, parse, files[..j], disk), files[j])
  {
    assert files[..j + 1][..j] == files[..j];
  }

  /** After any list, each day's counter is the number of files named on that day. */
  lemma {:induction false} CountersAfterRun(cfg: Config, parse: string -> Option<Date>, files: seq<SourceFile>,
                                            disk: set<string>, key: string)
    ensures Count(Run(cfg, parse, files, disk).counters, key) == NamedCount(files, parse, key)
    decreases |files|
  {
    if files != [] {
      CountersAfterRun(cfg, parse, files[..|files| - 1], disk, key);
    }
  }

  /** The result recorded for file `j` is its outcome after the files before it. */
  lemma ResultIsStep(cfg: Config, parse: string -> Option<Date>, files: seq<SourceFile>, disk: set<string>, j: nat)
    requires j < |files|
    ensures Run(cfg, parse, files, disk).results[j] == FileOutcome(cfg, parse, Run(cfg, parse, files[..j], disk), files[j])
  {
    RunPrefix(cfg, parse, files, disk, j + 1);
    RunSnoc(cfg, parse, files, disk, j);
    var st := Run(cfg, parse, files[..j], disk);
    assert |st.results| == j;
    assert Run(cfg, parse, files, disk).results[j] == Step(cfg, parse, st, files[j]).results[j];
  }

  /**
   * Files are numbered per day in list order: a file that cannot be opened uses no
   * number; any other file gets 1 + the number of earlier files named on its day,
   * whether or not its own save then succeeds.
   */
  lemma Numbering(cfg: Config, parse: string -> Option<Date>, files: seq<SourceFile>, disk: set<string>, j: nat)
    requires j < |files|
    ensures Run(cfg, parse, files, disk).results[j].NotOpened? <==> !Named(files[j])
    ensures Run(cfg, parse, files, disk).results[j].Saved? <==> files[j].outcome == Succeeds
    ensures Named(files[j]) ==>
              Run(cfg, parse, files, disk).results[j].dayKey == FileKey(files[j], parse) &&
              Run(cfg, parse, files, disk).results[j].number == NamedCount(files[..j], parse, FileKey(files[j], parse)) + 1
  {
    ResultIsStep(cfg, parse, files, disk, j);
    CountersAfterRun(cfg, parse, files[..j], disk, FileKey(files[j], parse));
  }

  /** A prefix has no more files named on a day than the whole list. */
  lemma {:induction false} NamedCountGrows(files: seq<SourceFile>, parse: string -> Option<Date>, key: string, j: nat)
    requires j <= |files|
    ensures NamedCount(files[..j], parse, key) <= NamedCount(files, parse, key)
    decreases |files|
  {
    if j < |files| {
      var init := files[..|files| - 1];
      NamedCountGrows(init, parse, key, j);
      assert init[..j] == files[..j];
    } else {
      assert files[..j] == files;
    }
  }

  lemma NamedCountLast(files: seq<SourceFile>, parse: string -> Option<Date>, key: string, i: nat)
    requires i < |files|
    ensures NamedCount(files[..i + 1], parse, key)
            == NamedCount(files[..i], parse, key) + (if Named(files[i]) && FileKey(files[i], parse) == key then 1 else 0)
  {
    var prefix := files[..i + 1];
    assert prefix[..|prefix| - 1] == files[..i];
    assert prefix[|prefix| - 1] == files[i];
  }

  /** Among the files named on one day, each one has more predecessors than the one before it. */
  lemma NamedCountIncreases(files: seq<SourceFile>, parse: string -> Option<Date>, key: string, i: nat, j: nat)
    requires i < j < |files|
    requires Named(files[i]) && FileKey(files[i], parse) == key
    ensures NamedCount(files[..i], parse, key) < NamedCount(files[..j], parse, key)
  {
    NamedCountLast(files, parse, key, i);
    assert NamedCount(files[..i + 1], parse, key) == NamedCount(files[..i], parse, key) + 1;
    var prefix := files[..j];
    NamedCountGrows(prefix, parse, key, i + 1);
    assert prefix[..i + 1] == files[..i + 1];
  }

  /** Two files named on the same day get strictly increasing numbers in list order. */
  lemma NumbersIncrease(cfg: Config, parse: string -> Option<Date>, files: seq<SourceFile>, disk: set<string>,
                        i: nat, j: nat)
    requires i < j < |files|
    requires Named(files[i]) && Named(files[j]) && FileKey(files[i], parse) == FileKey(files[j], parse)
    ensures !Run(cfg, parse, files, disk).results[i].NotOpened? && !Run(cfg, parse, files, disk).results[j].NotOpened?
    ensures Run(cfg, parse, files, disk).results[i].number < Run(cfg, parse, files, disk).results[j].number
  {
    Numbering(cfg, parse, files, disk, i);
    Numbering(cfg, parse, files, disk, j);
    NamedCountIncreases(files, parse, FileKey(files[i], parse), i, j);
  }

  /** The paths of the saved files among `rs`. */
  function Written(rs: seq<FileResult>): set<string> {
    set k | 0 <= k < |rs| && rs[k].Saved? :: rs[k].path
  }

  /** One more result adds its path when it is a write, and nothing otherwise. */
  lemma WrittenSnoc(rs: seq<FileResult>, r: FileResult)
    ensures Written(rs + [r]) == Written(rs) + (if r.Saved? then {r.path} else {})
  {
    var longer := rs + [r];
    forall p | p in Written(longer)
      ensures p in Written(rs) + (if r.Saved? then {r.path} else {})
    {
      var k :| 0 <= k < |longer| && longer[k].Saved? && longer[k].path == p;
      if k < |rs| {
        assert rs[k] == longer[k];
      }
    }
    forall p | p in Written(rs)
      ensures p in Written(longer)
    {
      var k :| 0 <= k < |rs| && rs[k].Saved? && rs[k].path == p;
      assert longer[k] == rs[k];
    }
    if r.Saved? {
      assert longer[|rs|] == r;
    }
  }

  /** The disk after a batch is the disk before it plus the paths the batch wrote. */
  lemma {:induction false} RunDisk(cfg: Config, parse: string -> Option<Date>, files: seq<SourceFile>, disk: set<string>)
    ensures Run(cfg, parse, files, disk).disk == disk + Written(Run(cfg, parse, files, disk).results)
    decreases |files|
  {
    if files != [] {
      var init := files[..|files| - 1];
      var f := files[|files| - 1];
      RunDisk(cfg, parse, init, disk);
      var st := Run(cfg, parse, init, disk);
      assert Run(cfg, parse, files, disk) == Step(cfg, parse, st, f);
      WrittenSnoc(st.results, FileOutcome(cfg, parse, st, f));
    }
  }

  /** A written path is neither on the original disk nor written by an earlier file. */
  lemma RunFresh(cfg: Config, parse: string -> Option<Date>, files: seq<SourceFile>, disk: set<string>, j: nat)
    requires j < |files|
    requires Run(cfg, parse, files, disk).results[j].Saved?
    ensures Run(cfg, parse, files, disk).results[j].path !in disk + Written(Run(cfg, parse, files, disk).results[..j])
  {
    ResultIsStep(cfg, parse, files, disk, j);
    RunPrefix(cfg, parse, files, disk, j);
    RunDisk(cfg, parse, files[..j], disk);
  }

  /**
   * Every written path is new: it did not exist before the run and differs from the
   * path of every earlier written file. Every written path exists at the end.
   */
  lemma WrittenPathsAreFresh(cfg: Config, parse: string -> Option<Date>, files: seq<SourceFile>,
                             disk: set<string>, i: nat, j: nat)
    requires i < j < |files|
    requires Run(cfg, parse, files, disk).results[j].Saved?
    ensures Run(cfg, parse, files, disk).results[j].path !in disk
    ensures Run(cfg, parse, files, disk).results[j].path in Run(cfg, parse, files, disk).disk
    ensures Run(cfg, parse, files, disk).results[i].Saved? ==>
              Run(cfg, parse, files, disk).results[i].path != Run(cfg, parse, files, disk).results[j].path
  {
    var rs := Run(cfg, parse, files, disk).results;
    RunFresh(cfg, parse, files, disk, j);
    RunDisk(cfg, parse, files, disk);
    assert rs[j].path in Written(rs);
    if rs[i].Saved? {
      var before := rs[..j];
      assert before[i] == rs[i];
      assert rs[i].path in Written(before);
    }
  }

  /** The disk afterwards holds exactly the paths that existed plus the written ones. */
  lemma DiskContents(cfg: Config, parse: string -> Option<Date>, files: seq<SourceFile>, disk: set<string>, p: string)
    ensures p in Run(cfg, parse, files, disk).disk <==>
              p in disk || exists k :: 0 <= k < |files| && Run(cfg, parse, files, disk).results[k].Saved?
                                       && Run(cfg, parse, files, disk).results[k].path == p
  {
    RunDisk(cfg, parse, files, disk);
  }

  /**
   * The body of the loop of `process_images` for one file: open, orient, date, name,
   * normalise, resize, allocate, save. Every failure is caught and recorded.
   */
  method ProcessFile(cfg: Config, parse: string -> Option<Date>, parentName: string, fmt: string, ext: string,
                     counters: map<string, nat>, disk: set<string>, results: seq<FileResult>, src: SourceFile)
    returns (countersAfter: map<string, nat>, diskAfter: set<string>, resultsAfter: seq<FileResult>)
    requires parentName == FinalComponent(cfg.sourceDir)
    requires fmt == SaveFormat(cfg.outputFormat) && ext == Extension(fmt)
    ensures RunState(countersAfter, diskAfter, resultsAfter) == Step(cfg, parse, RunState(counters, disk, results), src)
  {
    ghost var st := RunState(counters, disk, results);
    countersAfter, diskAfter := counters, disk;
    if src.outcome == FailsBeforeNaming {
      resultsAfter := results + [NotOpened];
      assert FileOutcome(cfg, parse, st, src) == NotOpened;
      return;
    }
    var resolved := ExifDatetime(src.exif, parse, src.mtime, src.now);
    var base;
    base, countersAfter := BuildBaseName(cfg.renamePattern, src.name, parentName, counters, resolved.date);
    var key := DayKey(resolved.date);
    assert key == FileKey(src, parse);
    var mode := EnsureRgb(src.mode);
    if src.outcome == FailsAfterNaming {
      resultsAfter := results + [NotSaved(key, countersAfter[key], base)];
      NotSavedOutcome(cfg, parse, st, src, key, countersAfter[key], base);
      return;
    }
    var outPath := UniquePath(cfg.destDir, base, ext, disk);
    var options := SaveKwargs(fmt, cfg.quality, cfg.stripMetadata, src.exifBlock, src.iccProfile);
    diskAfter := disk + {outPath};
    resultsAfter := results + [Saved(key, countersAfter[key], base, outPath, mode, options)];
    SavedOutcome(cfg, parse, st, src, key, countersAfter[key], base, fmt, ext, outPath, mode, options);
  }

  /** A file that fails after naming keeps its day key, number and name, and is not saved. */
  lemma NotSavedOutcome(cfg: Config, parse: string -> Option<Date>, st: RunState, f: SourceFile,
                        key: string, n: nat, base: string)
    requires f.outcome == FailsAfterNaming && key == FileKey(f, parse) && n == Count(st.counters, key) + 1
    requires base == BaseName(cfg.renamePattern, Context(FinalComponent(cfg.sourceDir), key, n, Stem(f.name)))
    ensures FileOutcome(cfg, parse, st, f) == NotSaved(key, n, base)
  {
  }

  /** A file whose save completes is written to the allocated path with the converted mode and options. */
  lemma SavedOutcome(cfg: Config, parse: string -> Option<Date>, st: RunState, f: SourceFile,
                     key: string, n: nat, base: string, fmt: string, ext: string,
                     path: string, mode: string, options: SaveOptions)
    requires f.outcome == Succeeds && key == FileKey(f, parse) && n == Count(st.counters, key) + 1
    requires base == BaseName(cfg.renamePattern, Context(FinalComponent(cfg.sourceDir), key, n, Stem(f.name)))
    requires fmt == SaveFormat(cfg.outputFormat) && ext == Extension(fmt)
    requires path == Allocate(cfg.destDir, base, ext, st.disk) && mode == EnsureRgb(f.mode)
    requires options == SaveKwargs(fmt, cfg.quality, cfg.stripMetadata, f.exifBlock, f.iccProfile)
    ensures FileOutcome(cfg, parse, st, f) == Saved(key, n, base, path, mode, options)
  {
    assert Named(f) && f.outcome != FailsAfterNaming;
  }

  /** The arguments of the first `m` progress callbacks of a batch of `total` files. */
  function Ticks(m: nat, total: nat): seq<(int, int)> {
    if m == 0 then [] else Ticks(m - 1, total) + [(m, total)]
  }

  /** The k-th callback (from 0) reports k + 1 files processed out of `total`. */
  lemma {:induction false} TicksShape(m: nat, total: nat)
    ensures |Ticks(m, total)| == m
    ensures forall k :: 0 <= k < m ==> Ticks(m, total)[k] == (k + 1, total)
  {
    if m > 0 {
      TicksShape(m - 1, total);
    }
  }

  /**
   * The loop of `process_images` over the image list: every file is processed
   * in order, a failing one included, and the callback hears `(processed, total)`
   * after each of them.
   */
  method ProcessAll(cfg: Config, parse: string -> Option<Date>, imagesList: seq<SourceFile>, disk: set<string>)
    returns (progress: seq<(int, int)>, results: seq<FileResult>, diskAfter: set<string>)
    ensures progress == Ticks(|imagesList|, |imagesList|)
    ensures results == Run(cfg, parse, imagesList, disk).results
    ensures diskAfter == Run(cfg, parse, imagesList, disk).disk
  {
    var total := |imagesList|;
    var parentName := FinalComponent(cfg.sourceDir);
    var counters: map<string, nat> := map[];
    var processed := 0;
    progress := [];
    results := [];
    diskAfter := disk;
    var fmt := SaveFormat(cfg.outputFormat);
    var ext := Extension(fmt);
    while processed < total
      invariant processed <= total
      invariant progress == Ticks(processed, total)
      invariant RunState(counters, diskAfter, results) == Run(cfg, parse, imagesList[..processed], disk)
    {
      RunSnoc(cfg, parse, imagesList, disk, processed);
      counters, diskAfter, results :=
        ProcessFile(cfg, parse, parentName, fmt, ext, counters, diskAfter, results, imagesList[processed]);
      processed := processed + 1;
      progress := progress + [(processed, total)];
    }
    assert imagesList[..processed] == imagesList;
  }

  /**
   * `process_images`. `images` is the optional explicit list, `tree` the walk of the
   * source folder, `parse` the date parser and `disk` the set of existing paths.
   * `progress` lists the callback's arguments in call order, `results` the fate of
   * each file (the log and the writes), `diskAfter` the paths existing afterwards.
   */
  method ProcessImages(cfg: Config, images: Option<seq<SourceFile>>, tree: seq<Entry>,
                       parse: string -> Option<Date>, disk: set<string>)
    returns (processed: nat, progress: seq<(int, int)>, results: seq<FileResult>, diskAfter: set<string>)
    ensures processed == |ImagesList(cfg, images, tree)|
    ensures processed == 0 ==> progress == [] && results == [] && diskAfter == disk
    ensures |progress| == processed
    ensures forall k :: 0 <= k < |progress| ==> progress[k] == (k + 1, processed)
    ensures results == Run(cfg, parse, ImagesList(cfg, images, tree), disk).results
    ensures diskAfter == Run(cfg, parse, ImagesList(cfg, images, tree), disk).disk
  {
    var imagesList := ImagesList(cfg, images, tree);
    if |imagesList| == 0 {
      assert Run(cfg, parse, imagesList, disk) == RunState(map[], disk, []);
      return 0, [], [], disk;
    }
    progress, results, diskAfter := ProcessAll(cfg, parse, imagesList, disk);
    processed := |imagesList|;
    TicksShape(processed, processed);
  }
}
