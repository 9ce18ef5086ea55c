/**
 * `zipprocessor.py`: every `.zip` file under the input directory gets a JSON
 * manifest naming each of its entries with the SHA-256 digest of the entry's
 * bytes. A failure while handling one archive is reported and that archive
 * passed over; the others are still processed.
 *
 * The directory walk, the archives on disk, the digest and the clock are
 * parameters: `walk` is what `os.walk(input_directory)` yields, `disk` maps a
 * path to what `zipfile.ZipFile` finds there (a path it cannot open is absent
 * or `BadZip`), and `elapsed(i)` is the time measured for the `i`-th archive.
 */
module ZipProcessor {
  import opened Wrappers
  import opened PyText
  import opened PyPath
  import opened Host

  /** One element of an archive's manifest: `file_path`, `file_name`, `sha256`. */
  datatype FileRecord = FileRecord(filePath: string, fileName: string, sha256: HexDigest)

  /** What became of one archive: its manifest written, or an exception printed and the archive passed over. */
  datatype ArchiveOutcome = Written(json: JsonFile<FileRecord>) | Skipped(zipPath: string)

  // ---------------------------------------------------------------------------
  // Finding the archives

  /** `os.path.join(root, name)` for each name, in order. */
  function JoinEach(root: string, names: seq<string>): (r: seq<string>)
    ensures |r| == |names|
    ensures forall i :: 0 <= i < |names| ==> r[i] == Join(root, names[i])
  {
    seq(|names|, i requires 0 <= i < |names| => Join(root, names[i]))
  }

  /** The full paths of the `.zip` files the walk lists, directory by directory. */
  function ZipPaths(walk: seq<WalkStep>): seq<string>
    decreases |walk|
  {
    if walk == [] then []
    else JoinEach(walk[0].root, ZipNames(walk[0].files)) + ZipPaths(walk[1..])
  }

  /** Every path to process joins a walked directory with one of its `.zip` names. */
  lemma {:induction false} ZipPathsSound(walk: seq<WalkStep>, p: string)
    requires p in ZipPaths(walk)
    ensures exists s, f :: s in walk && f in s.files && EndsWith(f, ".zip") && p == Join(s.root, f)
    decreases |walk|
  {
    var names := ZipNames(walk[0].files);
    var head := JoinEach(walk[0].root, names);
    if p in head {
      var i :| 0 <= i < |head| && head[i] == p;
      assert names[i] in names;
      assert walk[0] in walk;
    } else {
      ZipPathsSound(walk[1..], p);
      var s, f :| s in walk[1..] && f in s.files && EndsWith(f, ".zip") && p == Join(s.root, f);
      assert s in walk;
    }
  }

  /** Every `.zip` name the walk lists is processed, under its full path. */
  lemma {:induction false} ZipPathsComplete(walk: seq<WalkStep>, s: WalkStep, f: string)
    requires s in walk && f in s.files && EndsWith(f, ".zip")
    ensures Join(s.root, f) in ZipPaths(walk)
    decreases |walk|
  {
    if s == walk[0] {
      var names := ZipNames(s.files);
      assert f in names;
      var i :| 0 <= i < |names| && names[i] == f;
      assert JoinEach(s.root, names)[i] == Join(s.root, f);
    } else {
      var j :| 0 <= j < |walk| && walk[j] == s;
      assert walk[1..][j - 1] == s;
      ZipPathsComplete(walk[1..], s, f);
    }
  }

  // ---------------------------------------------------------------------------
  // One archive

  /** Lines 24-28: the record of a readable entry. */
  function EntryRecord(zipPath: string, name: string, data: Bytes, sha256: Bytes -> HexDigest): FileRecord {
    FileRecord(Join(Dirname(zipPath), name), Basename(name), sha256(data))
  }

  /** Every entry of the archive can be read. */
  predicate AllReadable(entries: seq<ZipEntry>) {
    forall i :: 0 <= i < |entries| ==> entries[i].data.Some?
  }

  /**
   * The entries read one after the other in `infolist()` order, `make`
   * building a value from each entry's name and bytes; `None` once reading an
   * entry raises.
   */
  function ReadEntries<T>(entries: seq<ZipEntry>, make: (string, Bytes) -> T): Option<seq<T>>
    decreases |entries|
  {
    if entries == [] then Some([])
    else
      match ReadEntries(entries[..|entries| - 1], make)
      case None => None
      case Some(vs) =>
        var e := entries[|entries| - 1];
        if e.data.None? then None else Some(vs + [make(e.filename, e.data.value)])
  }

  /** Reading succeeds exactly when every entry can be read. */
  lemma {:induction false} ReadEntriesSome<T>(entries: seq<ZipEntry>, make: (string, Bytes) -> T)
    ensures ReadEntries(entries, make).Some? <==> AllReadable(entries)
    decreases |entries|
  {
    if entries != [] {
      var n := |entries| - 1;
      var init := entries[..n];
      ReadEntriesSome(init, make);
      assert AllReadable(entries) <==> AllReadable(init) && entries[n].data.Some? by {
        assert forall i :: 0 <= i < n ==> init[i] == entries[i];
      }
    }
  }

  /** What a successful read yields: exactly one value per entry, in order, with no filtering by name. */
  lemma {:induction false} ReadEntriesValue<T>(entries: seq<ZipEntry>, make: (string, Bytes) -> T)
    requires AllReadable(entries)
    ensures ReadEntries(entries, make).Some?
    ensures var vs := ReadEntries(entries, make).value;
      && |vs| == |entries|
      && forall i :: 0 <= i < |entries| ==> vs[i] == make(entries[i].filename, entries[i].data.value)
    decreases |entries|
  {
    ReadEntriesSome(entries, make);
    if entries != [] {
      var n := |entries| - 1;
      var init := entries[..n];
      assert forall i :: 0 <= i < n ==> init[i] == entries[i];
      assert AllReadable(init);
      ReadEntriesValue(init, make);
      var prev := ReadEntries(init, make).value;
      var e := entries[n];
      var vs := prev + [make(e.filename, e.data.value)];
      assert ReadEntries(entries, make) == Some(vs);
      assert forall i :: 0 <= i < n ==> vs[i] == prev[i];
    }
  }

  /** Once reading fails, the entries after it do not matter. */
  lemma {:induction false} ReadEntriesStuck<T>(entries: seq<ZipEntry>, n: nat, make: (string, Bytes) -> T)
    requires n <= |entries| && ReadEntries(entries[..n], make).None?
    ensures ReadEntries(entries, make).None?
    decreases |entries| - n
  {
    if n < |entries| {
      assert entries[..n + 1][..n] == entries[..n];
      ReadEntriesStuck(entries, n + 1, make);
    } else {
      assert entries[..n] == entries;
    }
  }

  /** `EntryRecord` for the entries of the archive at `zipPath`. */
  function RecordMaker(zipPath: string, sha256: Bytes -> HexDigest): (string, Bytes) -> FileRecord {
    (name, data) => EntryRecord(zipPath, name, data, sha256)
  }

  /** Lines 21-28: an archive's records, one per entry. */
  function ArchiveRecords(zipPath: string, entries: seq<ZipEntry>, sha256: Bytes -> HexDigest): Option<seq<FileRecord>> {
    ReadEntries(entries, RecordMaker(zipPath, sha256))
  }

  /** A record's `file_name` is the last component of its `file_path`, and holds no `/`. */
  lemma EntryRecordNames(zipPath: string, name: string, data: Bytes, sha256: Bytes -> HexDigest)
    ensures var r := EntryRecord(zipPath, name, data, sha256);
      r.fileName == Basename(r.filePath) && '/' !in r.fileName
  {
    BasenameOfJoin(Dirname(zipPath), name);
    BasenameShape(name);
  }

  /** Line 36: `<out>/<archive basename without its extension>.json`. */
  function OutputPath(outDir: string, zipPath: string): string {
    Join(outDir, SplitExt(Basename(zipPath)).0 + ".json")
  }

  /** For `<dir>/<stem>.zip` the manifest is `<out>/<stem>.json`, whatever the directory. */
  lemma OutputPathOfStem(outDir: string, dir: string, stem: string)
    requires '/' !in stem && exists i :: 0 <= i < |stem| && stem[i] != '.'
    ensures OutputPath(outDir, Join(dir, stem + ".zip")) == Join(outDir, stem + ".json")
  {
    var name := stem + ".zip";
    assert name == stem + "." + "zip";
    assert '/' !in name;
    calc {
      OutputPath(outDir, Join(dir, name));
      { BasenameOfJoin(dir, name); }
      Join(outDir, SplitExt(Basename(name)).0 + ".json");
      { BasenameWithoutSlash(name); }
      Join(outDir, SplitExt(name).0 + ".json");
      { SplitExtOfSuffixed(stem, "zip"); }
      Join(outDir, stem + ".json");
    }
  }

  /** Archives of the same name in different directories are written to the same manifest file. */
  lemma OutputPathIgnoresDirectory(outDir: string, d1: string, d2: string, name: string)
    ensures OutputPath(outDir, Join(d1, name)) == OutputPath(outDir, Join(d2, name))
  {
    BasenameOfJoin(d1, name);
    BasenameOfJoin(d2, name);
  }

  /**
   * Lines 18-41 for the `i`-th archive: open it, read every entry, measure the
   * speed (a division by the elapsed time) and write the manifest; any of
   * these raising passes the archive over.
   */
  function ProcessOne(zipPath: string, i: nat, disk: map<string, ZipArchive>, sha256: Bytes -> HexDigest,
                      elapsed: nat -> real, outDir: string): ArchiveOutcome
  {
    if zipPath !in disk || disk[zipPath].BadZip? then Skipped(zipPath)
    else
      match ArchiveRecords(zipPath, disk[zipPath].entries, sha256)
      case None => Skipped(zipPath)
      case Some(rs) =>
        if elapsed(i) == 0.0 then Skipped(zipPath)
        else Written(JsonFile(OutputPath(outDir, zipPath), rs))
  }

  /**
   * An archive's manifest is written exactly when the archive opens, every
   * entry reads and the measured time is not zero; it then holds one record
   * per entry, in order, and goes to `OutputPath`.
   */
  lemma ProcessOneWritten(zipPath: string, i: nat, disk: map<string, ZipArchive>, sha256: Bytes -> HexDigest,
                          elapsed: nat -> real, outDir: string)
    ensures var o := ProcessOne(zipPath, i, disk, sha256, elapsed, outDir);
      o.Written? <==>
        && zipPath in disk && disk[zipPath].Zip?
        && AllReadable(disk[zipPath].entries)
        && elapsed(i) != 0.0
    ensures var o := ProcessOne(zipPath, i, disk, sha256, elapsed, outDir);
      o.Written? ==>
        var entries := disk[zipPath].entries;
        && o.json.path == OutputPath(outDir, zipPath)
        && |o.json.records| == |entries|
        && forall k :: 0 <= k < |entries| ==>
             o.json.records[k] == EntryRecord(zipPath, entries[k].filename, entries[k].data.value, sha256)
    ensures ProcessOne(zipPath, i, disk, sha256, elapsed, outDir).Skipped? ==>
      ProcessOne(zipPath, i, disk, sha256, elapsed, outDir).zipPath == zipPath
  {
    if zipPath in disk && disk[zipPath].Zip? {
      var make := RecordMaker(zipPath, sha256);
      ReadEntriesSome(disk[zipPath].entries, make);
      if AllReadable(disk[zipPath].entries) {
        ReadEntriesValue(disk[zipPath].entries, make);
      }
    }
  }

  // ---------------------------------------------------------------------------
  // The whole run

  /** The archives processed in order, each on its own. */
  function ZipRun(zips: seq<string>, disk: map<string, ZipArchive>, sha256: Bytes -> HexDigest,
                  elapsed: nat -> real, outDir: string): seq<ArchiveOutcome>
    decreases |zips|
  {
    if zips == [] then []
    else
      var n := |zips| - 1;
      ZipRun(zips[..n], disk, sha256, elapsed, outDir) + [ProcessOne(zips[n], n, disk, sha256, elapsed, outDir)]
  }

  /** One more archive: the outcomes so far, then that archive's. */
  lemma ZipRunNext(zips: seq<string>, i: nat, disk: map<string, ZipArchive>, sha256: Bytes -> HexDigest,
                   elapsed: nat -> real, outDir: string)
    requires i < |zips|
    ensures ZipRun(zips[..i + 1], disk, sha256, elapsed, outDir) ==
      ZipRun(zips[..i], disk, sha256, elapsed, outDir) + [ProcessOne(zips[i], i, disk, sha256, elapsed, outDir)]
  {
    assert zips[..i + 1][..i] == zips[..i];
  }

  /**
   * One outcome per archive, and what happens to an archive depends on that
   * archive alone: a failure in one never stops or changes the others.
   */
  lemma {:induction false} ZipRunEach(zips: seq<string>, disk: map<string, ZipArchive>, sha256: Bytes -> HexDigest,
                                     elapsed: nat -> real, outDir: string)
    ensures |ZipRun(zips, disk, sha256, elapsed, outDir)| == |zips|
    ensures forall i :: 0 <= i < |zips| ==>
      ZipRun(zips, disk, sha256, elapsed, outDir)[i] == ProcessOne(zips[i], i, disk, sha256, elapsed, outDir)
    decreases |zips|
  {
    if zips != [] {
      var n := |zips| - 1;
      ZipRunEach(zips[..n], disk, sha256, elapsed, outDir);
    }
  }

  /** Lines 44-47: the progress label, as written with its two branches. */
  function ProgressLabel(i: nat, total: nat): string {
    if i == 0 then "1/" + ShowNat(total) else ShowNat(i + 1) + "/" + ShowNat(total)
  }

  /** Both branches of the progress label give `<i+1>/<total>`. */
  lemma ProgressLabelUniform(i: nat, total: nat)
    ensures ProgressLabel(i, total) == ShowNat(i + 1) + "/" + ShowNat(total)
  {
    if i == 0 {
      assert ShowNat(1) == "1";
    }
  }

  // ---------------------------------------------------------------------------
  // The script, imperatively

  /** Lines 19-28: `file_data` grows entry by entry; `None` when reading an entry raises. */
  method ReadArchive(zipPath: string, entries: seq<ZipEntry>, sha256: Bytes -> HexDigest)
    returns (fileData: Option<seq<FileRecord>>)
    ensures fileData == ArchiveRecords(zipPath, entries, sha256)
  {
    var data: seq<FileRecord> := [];
    var i := 0;
    while i < |entries|
      invariant 0 <= i <= |entries|
      invariant ArchiveRecords(zipPath, entries[..i], sha256) == Some(data)
    {
      assert entries[..i + 1][..i] == entries[..i];
      var fileInfo := entries[i];
      if fileInfo.data.None? {
        ReadEntriesStuck(entries, i + 1, RecordMaker(zipPath, sha256));
        return None;
      }
      data := data + [FileRecord(Join(Dirname(zipPath), fileInfo.filename), Basename(fileInfo.filename),
                                 sha256(fileInfo.data.value))];
      i := i + 1;
    }
    assert entries[..i] == entries;
    fileData := Some(data);
  }

  /** Lines 18-41 for one archive, the `except` branch included. */
  method ProcessArchive(zipPath: string, i: nat, disk: map<string, ZipArchive>, sha256: Bytes -> HexDigest,
                        elapsed: nat -> real, outDir: string)
    returns (outcome: ArchiveOutcome)
    ensures outcome == ProcessOne(zipPath, i, disk, sha256, elapsed, outDir)
  {
    if zipPath !in disk || disk[zipPath].BadZip? {
      return Skipped(zipPath);
    }
    var fileData := ReadArchive(zipPath, disk[zipPath].entries, sha256);
    if fileData.None? {
      return Skipped(zipPath);
    }
    var processTime := elapsed(i);
    if processTime == 0.0 {
      return Skipped(zipPath);
    }
    var outputFilePath := Join(outDir, SplitExt(Basename(zipPath)).0 + ".json");
    outcome := Written(JsonFile(outputFilePath, fileData.value));
  }

  /**
   * `process_zip_files`: every archive of the walk in turn, with the
   * progress line printed after each.
   */
  method ProcessZipFiles(walk: seq<WalkStep>, disk: map<string, ZipArchive>, sha256: Bytes -> HexDigest,
                         elapsed: nat -> real, outDir: string)
    returns (outcomes: seq<ArchiveOutcome>, progress: seq<string>)
    ensures outcomes == ZipRun(ZipPaths(walk), disk, sha256, elapsed, outDir)
    ensures |progress| == |outcomes|
    ensures forall i :: 0 <= i < |progress| ==> progress[i] == ShowNat(i + 1) + "/" + ShowNat(|outcomes|)
  {
    var zipFiles := ZipPaths(walk);
    var total := |zipFiles|;
    outcomes := [];
    progress := [];
    var i := 0;
    while i < total
      invariant 0 <= i <= total
      invariant outcomes == ZipRun(zipFiles[..i], disk, sha256, elapsed, outDir)
      invariant |progress| == i
      invariant forall k :: 0 <= k < i ==> progress[k] == ShowNat(k + 1) + "/" + ShowNat(total)
    {
      ZipRunNext(zipFiles, i, disk, sha256, elapsed, outDir);
      var outcome := ProcessArchive(zipFiles[i], i, disk, sha256, elapsed, outDir);
      outcomes := outcomes + [outcome];
      ProgressLabelUniform(i, total);
      progress := progress + [ProgressLabel(i, total)];
      i := i + 1;
    }
    assert zipFiles[..i] == zipFiles;
    ZipRunEach(zipFiles, disk, sha256, elapsed, outDir);
  }
}
