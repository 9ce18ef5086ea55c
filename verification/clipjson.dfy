/**
 * `image-clip-tool/clip_json_generator.py`: for every `.zip` file the walk of
 * the input directory lists, each image member is decoded and saved as a
 * temporary file `extracted_<name>` in the working directory, hashed, embedded
 * with CLIP, recorded and removed; the records of one archive are written to
 * `<archive stem>_clip_vectors.json`. Nothing is caught except a missing file
 * inside `get_clip_vector`, so any other failure ends the whole run.
 *
 * The libraries are parameters, bundled in `Imaging`: `reencode(bytes, name)`
 * is PIL opening the member's bytes and saving them under `name` (the bytes of
 * the saved file, or `None` when PIL raises), `sha256` is the digest, and
 * `embed(bytes)` is the CLIP model's normalised feature vector for an image
 * file (or `None` when the model raises). `disk` maps a path to what
 * `zipfile.ZipFile` finds there.
 */
module ClipJson {
  import opened Wrappers
  import opened PyText
  import opened PyPath
  import opened Host

  /** `model_name`, recorded in every record. */
  const ModelName := "ViT-L/14"

  /** The suffixes that make an archive member an image (compared in lower case). */
  const ImageExtensions: seq<string> :=
    [".gif", ".jpg", ".jpeg", ".png", ".ppm", ".bmp", ".pgm", ".tif", ".tiff", ".webp"]

  const TempPrefix := "extracted_"
  const OutputSuffix := "_clip_vectors.json"

  /** The normalised features as `tolist()` gives them: one row per image of the batch. */
  type ClipVector = seq<seq<real>>

  /** One element of an archive's JSON file. */
  datatype ImageRecord = ImageRecord(
    zipfile: string,
    filename: string,
    fileHash: HexDigest,
    clipModel: string,
    clipVector: ClipVector)

  /** The image libraries and the model, as the tool sees them. */
  datatype Imaging = Imaging(
    reencode: (Bytes, string) -> Option<Bytes>,
    sha256: Bytes -> HexDigest,
    embed: Bytes -> Option<ClipVector>)

  /** What `get_clip_vector` ends in: a vector, `None` for a missing file, or an exception it lets through. */
  datatype ClipResult = Vector(v: ClipVector) | FileMissing | Raised

  // ---------------------------------------------------------------------------
  // Archives, members and names

  /** Line 44: the names of the `.zip` files the walk lists, directory by directory, without their directory. */
  function ClipZipNames(walk: seq<WalkStep>): seq<string>
    decreases |walk|
  {
    if walk == [] then [] else ZipNames(walk[0].files) + ClipZipNames(walk[1..])
  }

  /** A name is processed exactly when some walked directory lists it and it ends in `.zip`. */
  lemma {:induction false} ClipZipNamesMembers(walk: seq<WalkStep>, n: string)
    ensures n in ClipZipNames(walk) <==> exists s :: s in walk && n in s.files && EndsWith(n, ".zip")
    decreases |walk|
  {
    if walk != [] {
      ClipZipNamesMembers(walk[1..], n);
      if n in ClipZipNames(walk[1..]) {
        var s :| s in walk[1..] && n in s.files && EndsWith(n, ".zip");
        assert s in walk;
      }
      if exists s :: s in walk && n in s.files && EndsWith(n, ".zip") {
        var s :| s in walk && n in s.files && EndsWith(n, ".zip");
        if s != walk[0] {
          var j :| 0 <= j < |walk| && walk[j] == s;
          assert walk[1..][j - 1] == s;
        }
      }
    }
  }

  /** Line 49: the archive is opened under the input directory itself, whichever directory the walk found it in. */
  function ArchivePath(inputDir: string, name: string): string {
    Join(inputDir, name)
  }

  /** Line 84: `<out>/<name without extension>_clip_vectors.json`. */
  function OutputPath(outDir: string, name: string): string {
    Join(outDir, SplitExt(name).0 + OutputSuffix)
  }

  /** `<stem>.zip` gives `<out>/<stem>_clip_vectors.json`. */
  lemma OutputPathOfStem(outDir: string, stem: string)
    requires '/' !in stem && exists i :: 0 <= i < |stem| && stem[i] != '.'
    ensures OutputPath(outDir, stem + ".zip") == Join(outDir, stem + OutputSuffix)
  {
    assert stem + ".zip" == stem + "." + "zip";
    SplitExtOfSuffixed(stem, "zip");
  }

  /** The `zipfile` field: the basename of the opened path is the walked name itself. */
  lemma ArchivePathBasename(inputDir: string, name: string)
    requires '/' !in name
    ensures Basename(ArchivePath(inputDir, name)) == name
  {
    BasenameOfJoin(inputDir, name);
    BasenameWithoutSlash(name);
  }

  /** Line 53: a member is an image when its lower-cased name ends in one of the image suffixes. */
  predicate IsImageMember(name: string) {
    EndsWithAny(Lower(name), ImageExtensions)
  }

  /** The test ignores case: a name and its lower-cased form are both images or both not. */
  lemma ImageMemberIgnoresCase(name: string)
    ensures IsImageMember(name) <==> IsImageMember(Lower(name))
  {
    LowerIdempotent(name);
  }

  /** Line 53: the image members, in `infolist()` order. */
  function ImageMembers(entries: seq<ZipEntry>): seq<ZipEntry>
    decreases |entries|
  {
    if entries == [] then []
    else (if IsImageMember(entries[0].filename) then [entries[0]] else []) + ImageMembers(entries[1..])
  }

  /** Exactly the members with an image name are processed, and never more members than the archive holds. */
  lemma {:induction false} ImageMembersSpec(entries: seq<ZipEntry>)
    ensures |ImageMembers(entries)| <= |entries|
    ensures forall e :: e in ImageMembers(entries) <==> e in entries && IsImageMember(e.filename)
    decreases |entries|
  {
    if entries != [] {
      ImageMembersSpec(entries[1..]);
      assert entries == [entries[0]] + entries[1..];
    }
  }

  /** Line 60: the temporary file a member is saved as. */
  function TempName(member: string): string {
    TempPrefix + Basename(member)
  }

  /** The temporary files of some members. */
  function TempNames(ms: seq<ZipEntry>): set<string>
    decreases |ms|
  {
    if ms == [] then {} else TempNames(ms[..|ms| - 1]) + {TempName(ms[|ms| - 1].filename)}
  }

  // ---------------------------------------------------------------------------
  // The helpers, over the files of the working directory

  /** Lines 21-26: `get_file_hash`; it opens the file, so the file must be there. */
  function GetFileHash(files: map<string, Bytes>, path: string, im: Imaging): (h: HexDigest)
    requires path in files
  {
    im.sha256(files[path])
  }

  /**
   * Lines 28-39: `get_clip_vector`. It gives `None` exactly when the file is
   * missing; an image the model cannot handle raises through it.
   */
  function GetClipVector(files: map<string, Bytes>, path: string, im: Imaging): (r: ClipResult)
    ensures r.FileMissing? <==> path !in files
    ensures r.Vector? <==> path in files && im.embed(files[path]).Some?
  {
    if path !in files then FileMissing
    else
      match im.embed(files[path])
      case None => Raised
      case Some(v) => Vector(v)
  }

  // ---------------------------------------------------------------------------
  // One archive

  /** The state after some members: no exception yet, the records so far, the working directory. */
  datatype Scan = Scan(ok: bool, records: seq<ImageRecord>, files: map<string, Bytes>)

  /**
   * Lines 57-81 for one member: read it, save it re-encoded as its temporary
   * file, hash and embed that file, record it, and remove the file. The vector
   * is `None` only when the file is missing, and then `os.remove` raises. An
   * exception leaves the working directory as it is at that moment.
   */
  function MemberStep(zipPath: string, m: ZipEntry, files: map<string, Bytes>, im: Imaging): Scan {
    var temp := TempName(m.filename);
    if m.data.None? then Scan(false, [], files)
    else
      match im.reencode(m.data.value, temp)
      case None => Scan(false, [], files)
      case Some(saved) =>
        var files' := files[temp := saved];
        var fileHash := GetFileHash(files', temp, im);
        match GetClipVector(files', temp, im)
        case Raised => Scan(false, [], files')
        case FileMissing => Scan(false, [], files')
        case Vector(v) =>
          Scan(true, [ImageRecord(Basename(zipPath), Basename(m.filename), fileHash, ModelName, v)], files' - {temp})
  }

  /** Lines 54-81: the image members in order, stopping at the first exception. */
  function MembersRun(zipPath: string, ms: seq<ZipEntry>, files: map<string, Bytes>, im: Imaging): Scan
    decreases |ms|
  {
    if ms == [] then Scan(true, [], files)
    else
      var prev := MembersRun(zipPath, ms[..|ms| - 1], files, im);
      if !prev.ok then prev
      else
        var st := MemberStep(zipPath, ms[|ms| - 1], prev.files, im);
        Scan(st.ok, prev.records + st.records, st.files)
  }

  /** One more member: the run so far, then that member's step. */
  lemma MembersRunNext(zipPath: string, ms: seq<ZipEntry>, i: nat, files: map<string, Bytes>, im: Imaging)
    requires i < |ms|
    ensures var prev := MembersRun(zipPath, ms[..i], files, im);
      MembersRun(zipPath, ms[..i + 1], files, im) ==
        if !prev.ok then prev
        else
          var st := MemberStep(zipPath, ms[i], prev.files, im);
          Scan(st.ok, prev.records + st.records, st.files)
  {
    assert ms[..i + 1][..i] == ms[..i];
  }

  /** The bytes of a member's saved temporary file, when reading and re-encoding it succeed. */
  function Saved(m: ZipEntry, im: Imaging): Option<Bytes> {
    if m.data.None? then None else im.reencode(m.data.value, TempName(m.filename))
  }

  /** A member goes through without an exception: it reads, re-encodes and embeds. */
  predicate MemberOk(m: ZipEntry, im: Imaging) {
    Saved(m, im).Some? && im.embed(Saved(m, im).value).Some?
  }

  /** Every one of the members goes through. */
  predicate AllMembersOk(ms: seq<ZipEntry>, im: Imaging) {
    forall i :: 0 <= i < |ms| ==> MemberOk(ms[i], im)
  }

  /** The record a member that goes through yields, independent of the working directory. */
  function ExpectedRecord(zipPath: string, m: ZipEntry, im: Imaging): ImageRecord
    requires MemberOk(m, im)
  {
    var saved := Saved(m, im).value;
    ImageRecord(Basename(zipPath), Basename(m.filename), im.sha256(saved), ModelName, im.embed(saved).value)
  }

  /**
   * A single-process run never takes the "missing file" branch: the file was
   * saved just before, so a member that goes through always yields its record.
   */
  lemma MemberStepRecords(zipPath: string, m: ZipEntry, files: map<string, Bytes>, im: Imaging)
    ensures MemberStep(zipPath, m, files, im).ok <==> MemberOk(m, im)
    ensures MemberStep(zipPath, m, files, im).ok ==>
      MemberStep(zipPath, m, files, im).records == [ExpectedRecord(zipPath, m, im)]
  {
  }

  /** Only the member's temporary file changes, and it is gone again once the member goes through. */
  lemma MemberStepFiles(zipPath: string, m: ZipEntry, files: map<string, Bytes>, im: Imaging)
    ensures var st := MemberStep(zipPath, m, files, im);
      forall k :: k != TempName(m.filename) ==>
        (k in st.files <==> k in files) && (k in files ==> st.files[k] == files[k])
    ensures MemberStep(zipPath, m, files, im).ok ==> TempName(m.filename) !in MemberStep(zipPath, m, files, im).files
  {
  }

  /** The members all go through exactly when each of them does. */
  lemma {:induction false} MembersRunOk(zipPath: string, ms: seq<ZipEntry>, files: map<string, Bytes>, im: Imaging)
    ensures MembersRun(zipPath, ms, files, im).ok <==> AllMembersOk(ms, im)
    decreases |ms|
  {
    if ms != [] {
      var n := |ms| - 1;
      var init := ms[..n];
      MembersRunOk(zipPath, init, files, im);
      assert forall i :: 0 <= i < n ==> init[i] == ms[i];
      MemberStepRecords(zipPath, ms[n], MembersRun(zipPath, init, files, im).files, im);
    }
  }

  /** The records of an archive whose members all go through: one per image member, in order. */
  function ExpectedRecords(zipPath: string, ms: seq<ZipEntry>, im: Imaging): seq<ImageRecord>
    requires AllMembersOk(ms, im)
    decreases |ms|
  {
    if ms == [] then []
    else ExpectedRecords(zipPath, ms[..|ms| - 1], im) + [ExpectedRecord(zipPath, ms[|ms| - 1], im)]
  }

  /** When all members go through, the records are exactly the expected ones, whatever the working directory held. */
  lemma {:induction false} MembersRunRecords(zipPath: string, ms: seq<ZipEntry>, files: map<string, Bytes>, im: Imaging)
    requires MembersRun(zipPath, ms, files, im).ok
    ensures AllMembersOk(ms, im)
    ensures MembersRun(zipPath, ms, files, im).records == ExpectedRecords(zipPath, ms, im)
    decreases |ms|
  {
    MembersRunOk(zipPath, ms, files, im);
    if ms != [] {
      var n := |ms| - 1;
      var init := ms[..n];
      var prev := MembersRun(zipPath, init, files, im);
      assert forall i :: 0 <= i < n ==> init[i] == ms[i];
      MembersRunRecords(zipPath, init, files, im);
      MemberStepRecords(zipPath, ms[n], prev.files, im);
    }
  }

  /** The working directory changes only in the members' temporary files, whether or not the archive goes through. */
  lemma {:induction false} MembersRunFrame(zipPath: string, ms: seq<ZipEntry>, files: map<string, Bytes>, im: Imaging)
    ensures var st := MembersRun(zipPath, ms, files, im);
      forall k :: k !in TempNames(ms) ==> (k in st.files <==> k in files) && (k in files ==> st.files[k] == files[k])
    decreases |ms|
  {
    if ms != [] {
      var n := |ms| - 1;
      var init := ms[..n];
      MembersRunFrame(zipPath, init, files, im);
      MemberStepFiles(zipPath, ms[n], MembersRun(zipPath, init, files, im).files, im);
    }
  }

  /** After an archive that goes through, none of its temporary files is left. */
  lemma {:induction false} MembersRunCleansUp(zipPath: string, ms: seq<ZipEntry>, files: map<string, Bytes>, im: Imaging)
    requires MembersRun(zipPath, ms, files, im).ok
    ensures forall k :: k in TempNames(ms) ==> k !in MembersRun(zipPath, ms, files, im).files
    decreases |ms|
  {
    if ms != [] {
      var n := |ms| - 1;
      var init := ms[..n];
      var prev := MembersRun(zipPath, init, files, im);
      MembersRunCleansUp(zipPath, init, files, im);
      MemberStepFiles(zipPath, ms[n], prev.files, im);
    }
  }

  /** Once a member raises, the members after it are never reached. */
  lemma {:induction false} MembersRunStuck(zipPath: string, ms: seq<ZipEntry>, n: nat, files: map<string, Bytes>, im: Imaging)
    requires n <= |ms| && !MembersRun(zipPath, ms[..n], files, im).ok
    ensures MembersRun(zipPath, ms, files, im) == MembersRun(zipPath, ms[..n], files, im)
    decreases |ms| - n
  {
    if n < |ms| {
      assert ms[..n + 1][..n] == ms[..n];
      MembersRunStuck(zipPath, ms, n + 1, files, im);
    } else {
      assert ms[..n] == ms;
    }
  }

  // ---------------------------------------------------------------------------
  // The whole run

  /** The image members of the archive opened for `name`; none when it cannot be opened. */
  function ArchiveMembers(inputDir: string, name: string, disk: map<string, ZipArchive>): seq<ZipEntry> {
    var path := ArchivePath(inputDir, name);
    if path in disk && disk[path].Zip? then ImageMembers(disk[path].entries) else []
  }

  /** The archive opened for `name` can be opened and every image member in it goes through. */
  predicate ArchiveOk(inputDir: string, name: string, disk: map<string, ZipArchive>, im: Imaging) {
    var path := ArchivePath(inputDir, name);
    && path in disk && disk[path].Zip?
    && AllMembersOk(ArchiveMembers(inputDir, name, disk), im)
  }

  /** The JSON file written for an archive that goes through. */
  function ArchiveJson(inputDir: string, outDir: string, name: string, disk: map<string, ZipArchive>, im: Imaging)
    : JsonFile<ImageRecord>
    requires ArchiveOk(inputDir, name, disk, im)
  {
    JsonFile(OutputPath(outDir, name), ExpectedRecords(ArchivePath(inputDir, name), ArchiveMembers(inputDir, name, disk), im))
  }

  /** The run so far: still going, the JSON files written, the working directory. */
  datatype ClipState = ClipState(finished: bool, written: seq<JsonFile<ImageRecord>>, files: map<string, Bytes>)

  /** Lines 48-86: the archives in order; the first exception ends the run. */
  function ClipRun(names: seq<string>, inputDir: string, outDir: string, disk: map<string, ZipArchive>,
                   files: map<string, Bytes>, im: Imaging): ClipState
    decreases |names|
  {
    if names == [] then ClipState(true, [], files)
    else
      var prev := ClipRun(names[..|names| - 1], inputDir, outDir, disk, files, im);
      var name := names[|names| - 1];
      var path := ArchivePath(inputDir, name);
      if !prev.finished then prev
      else if path !in disk || disk[path].BadZip? then ClipState(false, prev.written, prev.files)
      else
        var st := MembersRun(path, ImageMembers(disk[path].entries), prev.files, im);
        if !st.ok then ClipState(false, prev.written, st.files)
        else ClipState(true, prev.written + [JsonFile(OutputPath(outDir, name), st.records)], st.files)
  }

  /** One more archive: the run so far, then that archive. */
  lemma ClipRunNext(names: seq<string>, i: nat, inputDir: string, outDir: string,
                    disk: map<string, ZipArchive>, files: map<string, Bytes>, im: Imaging)
    requires i < |names|
    ensures var prev := ClipRun(names[..i], inputDir, outDir, disk, files, im);
      var path := ArchivePath(inputDir, names[i]);
      ClipRun(names[..i + 1], inputDir, outDir, disk, files, im) ==
        if !prev.finished then prev
        else if path !in disk || disk[path].BadZip? then ClipState(false, prev.written, prev.files)
        else
          var st := MembersRun(path, ImageMembers(disk[path].entries), prev.files, im);
          if !st.ok then ClipState(false, prev.written, st.files)
          else ClipState(true, prev.written + [JsonFile(OutputPath(outDir, names[i]), st.records)], st.files)
  {
    assert names[..i + 1][..i] == names[..i];
  }

  /** The last archive either adds its JSON file, having gone through, or ends the run having written nothing. */
  lemma ClipRunLast(names: seq<string>, inputDir: string, outDir: string,
                    disk: map<string, ZipArchive>, files: map<string, Bytes>, im: Imaging)
    requires names != []
    ensures var prev := ClipRun(names[..|names| - 1], inputDir, outDir, disk, files, im);
      var st := ClipRun(names, inputDir, outDir, disk, files, im);
      var name := names[|names| - 1];
      if prev.finished && ArchiveOk(inputDir, name, disk, im)
      then st.finished && st.written == prev.written + [ArchiveJson(inputDir, outDir, name, disk, im)]
      else !st.finished && st.written == prev.written
  {
    var prev := ClipRun(names[..|names| - 1], inputDir, outDir, disk, files, im);
    var name := names[|names| - 1];
    var path := ArchivePath(inputDir, name);
    if prev.finished && path in disk && disk[path].Zip? {
      var ms := ImageMembers(disk[path].entries);
      MembersRunOk(path, ms, prev.files, im);
      if MembersRun(path, ms, prev.files, im).ok {
        MembersRunRecords(path, ms, prev.files, im);
      }
    }
  }

  /** Every one of the archives opens and every image member in it goes through. */
  predicate AllArchivesOk(names: seq<string>, inputDir: string, disk: map<string, ZipArchive>, im: Imaging)
    decreases |names|
  {
    names == [] ||
    (AllArchivesOk(names[..|names| - 1], inputDir, disk, im) && ArchiveOk(inputDir, names[|names| - 1], disk, im))
  }

  /** `AllArchivesOk` holds exactly when each archive is ok. */
  lemma {:induction false} AllArchivesOkEach(names: seq<string>, inputDir: string, disk: map<string, ZipArchive>, im: Imaging)
    ensures AllArchivesOk(names, inputDir, disk, im) <==> forall i :: 0 <= i < |names| ==> ArchiveOk(inputDir, names[i], disk, im)
    decreases |names|
  {
    if names != [] {
      var n := |names| - 1;
      var init := names[..n];
      AllArchivesOkEach(init, inputDir, disk, im);
      assert forall i :: 0 <= i < n ==> init[i] == names[i];
    }
  }

  /** The run finishes exactly when every archive opens and every image member in it goes through. */
  lemma {:induction false} ClipRunFinished(names: seq<string>, inputDir: string, outDir: string,
                                          disk: map<string, ZipArchive>, files: map<string, Bytes>, im: Imaging)
    ensures ClipRun(names, inputDir, outDir, disk, files, im).finished <==> AllArchivesOk(names, inputDir, disk, im)
    decreases |names|
  {
    if names != [] {
      var n := |names| - 1;
      var init := names[..n];
      ClipRunFinished(init, inputDir, outDir, disk, files, im);
      var prev := ClipRun(init, inputDir, outDir, disk, files, im);
      var path := ArchivePath(inputDir, names[n]);
      if prev.finished && path in disk && disk[path].Zip? {
        MembersRunOk(path, ImageMembers(disk[path].entries), prev.files, im);
      }
    }
  }

  /** At most one JSON file per archive, and one for every archive exactly when the run finishes. */
  lemma {:induction false} ClipRunCount(names: seq<string>, inputDir: string, outDir: string,
                                       disk: map<string, ZipArchive>, files: map<string, Bytes>, im: Imaging)
    ensures var st := ClipRun(names, inputDir, outDir, disk, files, im);
      |st.written| <= |names| && (st.finished <==> |st.written| == |names|)
    decreases |names|
  {
    if names != [] {
      var n := |names| - 1;
      ClipRunCount(names[..n], inputDir, outDir, disk, files, im);
      ClipRunLast(names, inputDir, outDir, disk, files, im);
    }
  }

  /**
   * The files written are those of the archives before the first failure, in
   * order, each at its output path and holding exactly the expected records
   * of its image members.
   */
  lemma {:induction false} ClipRunWritten(names: seq<string>, inputDir: string, outDir: string,
                                         disk: map<string, ZipArchive>, files: map<string, Bytes>, im: Imaging)
    ensures var st := ClipRun(names, inputDir, outDir, disk, files, im);
      forall i :: 0 <= i < |st.written| ==>
        i < |names| && ArchiveOk(inputDir, names[i], disk, im) && st.written[i] == ArchiveJson(inputDir, outDir, names[i], disk, im)
    decreases |names|
  {
    if names != [] {
      var n := |names| - 1;
      var init := names[..n];
      ClipRunWritten(init, inputDir, outDir, disk, files, im);
      ClipRunCount(init, inputDir, outDir, disk, files, im);
      ClipRunLast(names, inputDir, outDir, disk, files, im);
      var prev := ClipRun(init, inputDir, outDir, disk, files, im);
      var st := ClipRun(names, inputDir, outDir, disk, files, im);
      forall i | 0 <= i < |st.written|
        ensures i < |names| && ArchiveOk(inputDir, names[i], disk, im)
        ensures st.written[i] == ArchiveJson(inputDir, outDir, names[i], disk, im)
      {
        if i < |prev.written| {
          assert init[i] == names[i];
          assert st.written[i] == prev.written[i];
        } else {
          assert i == n;
        }
      }
    }
  }

  /** The temporary files of every archive the run reaches. */
  function RunTemps(names: seq<string>, inputDir: string, disk: map<string, ZipArchive>): set<string>
    decreases |names|
  {
    if names == [] then {}
    else RunTemps(names[..|names| - 1], inputDir, disk) + TempNames(ArchiveMembers(inputDir, names[|names| - 1], disk))
  }

  /**
   * The working directory outside the temporary files is never touched; after
   * a finished run none of the temporary files is left, so a file of the same
   * name that was there before is gone.
   */
  lemma {:induction false} ClipRunFiles(names: seq<string>, inputDir: string, outDir: string,
                                       disk: map<string, ZipArchive>, files: map<string, Bytes>, im: Imaging)
    ensures var st := ClipRun(names, inputDir, outDir, disk, files, im);
      forall k :: k !in RunTemps(names, inputDir, disk) ==>
        (k in st.files <==> k in files) && (k in files ==> st.files[k] == files[k])
    ensures var st := ClipRun(names, inputDir, outDir, disk, files, im);
      st.finished ==> forall k :: k in RunTemps(names, inputDir, disk) ==> k !in st.files
    decreases |names|
  {
    if names != [] {
      var n := |names| - 1;
      var init := names[..n];
      ClipRunFiles(init, inputDir, outDir, disk, files, im);
      var prev := ClipRun(init, inputDir, outDir, disk, files, im);
      var path := ArchivePath(inputDir, names[n]);
      if prev.finished && path in disk && disk[path].Zip? {
        var ms := ImageMembers(disk[path].entries);
        MembersRunFrame(path, ms, prev.files, im);
        if MembersRun(path, ms, prev.files, im).ok {
          MembersRunCleansUp(path, ms, prev.files, im);
        }
      }
    }
  }

  /** Once an archive fails, the archives after it are never reached. */
  lemma {:induction false} ClipRunStuck(names: seq<string>, n: nat, inputDir: string, outDir: string,
                                       disk: map<string, ZipArchive>, files: map<string, Bytes>, im: Imaging)
    requires n <= |names| && !ClipRun(names[..n], inputDir, outDir, disk, files, im).finished
    ensures ClipRun(names, inputDir, outDir, disk, files, im) == ClipRun(names[..n], inputDir, outDir, disk, files, im)
    decreases |names| - n
  {
    if n < |names| {
      assert names[..n + 1][..n] == names[..n];
      ClipRunStuck(names, n + 1, inputDir, outDir, disk, files, im);
    } else {
      assert names[..n] == names;
    }
  }

  // ---------------------------------------------------------------------------
  // The tool, imperatively

  /** The current working directory, where the temporary files come and go. */
  class WorkDir {
    var files: map<string, Bytes>

    constructor (initial: map<string, Bytes>)
      ensures files == initial
    {
      files := initial;
    }

    /** `img.save(name)`: creates or overwrites the file. */
    method Save(name: string, data: Bytes)
      modifies this
      ensures files == old(files)[name := data]
    {
      files := files[name := data];
    }

    /** `os.remove(name)`: the file must exist. */
    method Remove(name: string)
      requires name in files
      modifies this
      ensures files == old(files) - {name}
    {
      files := files - {name};
    }
  }

  /**
   * Lines 57-81 for one member: save it re-encoded as its temporary file,
   * hash and embed that file, and remove it again; `ok` is false where the
   * source raises, and `records` holds the member's record if it has one.
   */
  method ProcessMember(wd: WorkDir, zipPath: string, member: ZipEntry, im: Imaging)
    returns (ok: bool, records: seq<ImageRecord>)
    modifies wd
    ensures MemberStep(zipPath, member, old(wd.files), im) == Scan(ok, records, wd.files)
  {
    var temp := TempPrefix + Basename(member.filename);
    if member.data.None? {
      return false, [];
    }
    var img := im.reencode(member.data.value, temp);
    if img.None? {
      return false, [];
    }
    wd.Save(temp, img.value);
    var fileHash := GetFileHash(wd.files, temp, im);
    var clipVector := GetClipVector(wd.files, temp, im);
    if clipVector.Raised? {
      return false, [];
    }
    records := [];
    if clipVector.Vector? {
      records := [ImageRecord(Basename(zipPath), Basename(member.filename), fileHash, ModelName, clipVector.v)];
    }
    wd.Remove(temp);
    ok := true;
  }

  /** Lines 50-81 for one opened archive: `image_data` grows member by member; `None` when a member raises. */
  method ProcessMembers(wd: WorkDir, zipPath: string, members: seq<ZipEntry>, im: Imaging)
    returns (imageData: Option<seq<ImageRecord>>)
    modifies wd
    ensures var st := MembersRun(zipPath, members, old(wd.files), im);
      wd.files == st.files && imageData == (if st.ok then Some(st.records) else None)
  {
    var records: seq<ImageRecord> := [];
    var i := 0;
    while i < |members|
      invariant 0 <= i <= |members|
      invariant MembersRun(zipPath, members[..i], old(wd.files), im) == Scan(true, records, wd.files)
    {
      MembersRunNext(zipPath, members, i, old(wd.files), im);
      var ok, memberRecords := ProcessMember(wd, zipPath, members[i], im);
      if !ok {
        MembersRunStuck(zipPath, members, i + 1, old(wd.files), im);
        return None;
      }
      records := records + memberRecords;
      i := i + 1;
    }
    assert members[..i] == members;
    imageData := Some(records);
  }

  /**
   * `clip_json_generator`: every archive the walk lists, opened under the
   * input directory; `finished` is false when an exception ended the run.
   */
  method ClipJsonGenerator(wd: WorkDir, walk: seq<WalkStep>, inputDir: string, outDir: string,
                           disk: map<string, ZipArchive>, im: Imaging)
    returns (written: seq<JsonFile<ImageRecord>>, finished: bool)
    modifies wd
    ensures ClipRun(ClipZipNames(walk), inputDir, outDir, disk, old(wd.files), im) == ClipState(finished, written, wd.files)
  {
    var zipFiles := ClipZipNames(walk);
    written := [];
    var i := 0;
    while i < |zipFiles|
      invariant 0 <= i <= |zipFiles|
      invariant ClipRun(zipFiles[..i], inputDir, outDir, disk, old(wd.files), im) == ClipState(true, written, wd.files)
    {
      ClipRunNext(zipFiles, i, inputDir, outDir, disk, old(wd.files), im);
      var file := zipFiles[i];
      var zipFilePath := Join(inputDir, file);
      if zipFilePath !in disk || disk[zipFilePath].BadZip? {
        ClipRunStuck(zipFiles, i + 1, inputDir, outDir, disk, old(wd.files), im);
        return written, false;
      }
      var imageMembers := ImageMembers(disk[zipFilePath].entries);
      var imageData := ProcessMembers(wd, zipFilePath, imageMembers, im);
      if imageData.None? {
        ClipRunStuck(zipFiles, i + 1, inputDir, outDir, disk, old(wd.files), im);
        return written, false;
      }
      var outputJsonFile := Join(outDir, SplitExt(file).0 + OutputSuffix);
      written := written + [JsonFile(outputJsonFile, imageData.value)];
      i := i + 1;
    }
    assert zipFiles[..i] == zipFiles;
    finished := true;
  }
}
