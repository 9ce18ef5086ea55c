# Image-dataset fingerprinting scripts, modelled in Dafny

This project models three batch scripts that fingerprint image datasets with
SHA-256.

- `ava_json_generator.py` loads the AVA rating table (`AVA.txt`).
  - It indexes the table by image id and sorts it.
  - It walks `images-sorted/<dir>/` in sorted directory order. For every
    `.jpg` or `.png` file, it writes the file's digest and name into the rows
    of the id the file name starts with.
  - It writes one manifest per directory, `<dir>/<dir>.json`, holding the
    rows each file touched at that moment.
  - It splits the final table into the rows that found a file (`AVA.json`)
    and the rows that did not (`error.txt`).
- `zipprocessor.py` (`process_zip_files`) writes one JSON manifest per `.zip`
  archive under a directory tree. Each manifest lists every entry's path,
  base name and SHA-256 digest.
  - A failure while handling one archive is printed, and that archive is
    passed over.
- `image-clip-tool/clip_json_generator.py` (`clip_json_generator`) handles
  every image member of every archive the walk lists. For each member it:
  - re-encodes the member into a temporary file `extracted_<name>` in the
    working directory;
  - hashes that file and embeds it with CLIP;
  - records the result and removes the file.
  It then writes `<archive stem>_clip_vectors.json`.

Everything outside the scripts is a parameter of the model:

- the directory tree and `os.walk` listings;
- file contents as bytes;
- the archives on disk, as `zipfile` presents them;
- the SHA-256 function;
- the clock (the elapsed time of each archive);
- the image library and the CLIP model (`ClipJson.Imaging`);
- the current directory.

The JSON documents written are values: a path and the sequence of records.

The modules are:

| module | contents |
|---|---|
| `Wrappers` | `Option` and `Result` |
| `PyText` | the `str` operations used: `endswith`, `lower`, `split('.')[0]`, `str(int)` and `int(text)`, including `int`'s sign, whitespace and digit-separator rules |
| `PyPath` | POSIX `os.path.basename`, `dirname`, `join` and `splitext` |
| `Sorting` | a generic insertion sort, and Python's string order |
| `Host` | bytes, hex digests, walk steps, zip archives, JSON files |
| `AvaJson` | the AVA join |
| `ZipProcessor` | the archive manifests |
| `ClipJson` | the CLIP tool |

Each script is modelled twice:

- as imperative code that follows the source loop by loop: `AvaJson.Table`,
  `AvaJson.ScanDirectory`, `AvaJson.GenerateAvaJson`,
  `ZipProcessor.ProcessZipFiles`, `ClipJson.WorkDir`,
  `ClipJson.ClipJsonGenerator`;
- as a specification function over the inputs: `AvaRun`, `ZipRun`,
  `ClipRun`.

Each method is proved equal to its specification function, and the
properties of the scripts are proved about those functions.

In several places the code does not do what one would expect of such a
script (skip a bad file, ignore an unknown id, carry on after one failed
archive). The model follows the code:

- **Unknown image id (AVA).** An image file whose id is not in `AVA.txt` is
  not ignored. `df.loc[id, col] = v` enlarges the table with a row that is
  empty (NaN) except for the hash and the name.
  - That row then appears in the directory manifest and in `AVA.json`.
- **Bad file stem (AVA).** An image file whose stem is not an integer does
  not just skip that file. `int()` raises `ValueError` and the whole run
  stops.
  - The manifests of the earlier directories have been written by then.
  - `AVA.json` and `error.txt` are not written.
- **Duplicate ids (AVA).** Duplicate image ids in `AVA.txt` are not
  overwritten: both rows stay in the table. An assignment stamps every row
  with the id, and the manifest receives all of them.
- **Failures in the CLIP tool.** Nothing is caught except a missing file
  inside `get_clip_vector`. So any of the following ends the whole run,
  including all later archives:
  - an undecodable image;
  - a model failure;
  - an archive that cannot be opened.
- **Archive paths in the CLIP tool.** The archive is opened at
  `input_directory/<name>`, not in the directory where the walk found it.
  For an archive found in a sub-directory, the file at
  `input_directory/<name>` is opened instead. When no file of that name is
  there, opening fails and the run stops; otherwise that other file is
  processed.

## Model

| member | source | states |
|---|---|---|
| Sorting.InsertionSort | ava_json_generator.py:40 | the result is sorted by the given total preorder and is a permutation of the input |
| Sorting.StrLeTotalPreorder | ava_json_generator.py:50 | Python's string order, used by `sorted`, is total and transitive |
| PyText.ParseShowInt | ava_json_generator.py:78 | `int(str(z)) == z` for every integer |
| PyText.ParseIntNeedsDigit | ava_json_generator.py:78 | text without a digit makes `int()` raise |
| PyText.BeforeFirstConcat | ava_json_generator.py:78 | `split('.')[0]` of `a + '.' + …`, where `a` has no dot, is `a` |
| PyText.LowerIdempotent | image-clip-tool/clip_json_generator.py:53 | lower-casing twice is the same as lower-casing once |
| PyPath.BasenameShape | zipprocessor.py:26 | `basename` is a suffix of the path, holds no `/`, and is preceded by a `/` unless it is the whole path |
| PyPath.BasenameOfJoin | zipprocessor.py:25-26 | `basename(join(a, b)) == basename(b)` |
| PyPath.DirnameOfJoin | zipprocessor.py:25 | `dirname(join(d, n)) == d` for a name without `/` and a non-empty directory without a trailing `/` |
| PyPath.SplitExtOfSuffixed | zipprocessor.py:36 | `splitext(stem + '.' + ext) == (stem, '.' + ext)` when the stem is not all dots and neither part has a `/` nor the extension a `.` |
| Host.ZipNames | zipprocessor.py:10 | exactly the listed names ending in `.zip`, never more than were listed |
| AvaJson.LoadRows | ava_json_generator.py:15-34 | one row per line of `AVA.txt`, in file order, each row that line's |
| AvaJson.LoadRowFresh | ava_json_generator.py:24-34 | a loaded row has every column. Its hash and name are empty, its dictionary keys are the ten bucket labels in order, and its `ScoreCount` is the sum of the dictionary's values |
| AvaJson.BuildTable | ava_json_generator.py:37-40 | the table is sorted by image id and is a permutation of the loaded rows |
| AvaJson.BuildTableRows | ava_json_generator.py:15-40 | the table has one row per line, every row is freshly loaded, and a row is in the table exactly when it is some line's row |
| AvaJson.Table.constructor | ava_json_generator.py:15-40 | the data frame starts as `BuildTable` of the lines |
| AvaJson.Select | ava_json_generator.py:85 | `df.loc[[k]]` returns only rows of the table labelled `k` |
| AvaJson.SelectComplete | ava_json_generator.py:85 | `df.loc[[k]]` misses no row labelled `k` |
| AvaJson.SelectAppend | ava_json_generator.py:85 | selecting from a concatenation concatenates the selections |
| AvaJson.Assign | ava_json_generator.py:81-82 | an unknown id appends one enlarged row. A known id stamps the hash and name into every row with that label and leaves every other row as it was |
| AvaJson.AssignSelect | ava_json_generator.py:81-82 | after an assignment, the rows of another id are unchanged. The rows of the assigned id are stamped, or a single enlarged row when there were none |
| AvaJson.LastWriteWins | ava_json_generator.py:81-82 | two assignments to the same id equal the second alone |
| AvaJson.UniqueKeysPermuted | ava_json_generator.py:40 | reordering the rows, as `sort_index` does, keeps ids unique |
| AvaJson.BuildTableUnique | ava_json_generator.py:15-40 | when no two lines of `AVA.txt` share an id, the loaded table has one row per id |
| AvaJson.AssignUnique | ava_json_generator.py:81-82 | assignments keep image ids unique when they were unique |
| AvaJson.AssignKeepsLoadedColumns | ava_json_generator.py:81-82 | an assignment changes no row's label, `Index`, `ImageId`, `ScoreCount` or `ScoreDictionary` |
| AvaJson.Table.SetMatch | ava_json_generator.py:81-82 | the frame's rows become `Assign` of the old rows |
| AvaJson.JoinKeyOfIdName | ava_json_generator.py:78 | a file named `<id>.<ext>` joins on `id` |
| AvaJson.ImageFiles | ava_json_generator.py:66-67 | a file of the listing passes the filter exactly when its name ends in `.jpg` or `.png` |
| AvaJson.DirMatchesOk | ava_json_generator.py:62-82 | a scan that succeeds makes exactly one match per image file, in listing order: that file's id, digest and name |
| AvaJson.DirMatchesErr | ava_json_generator.py:62-78 | a scan fails only at the first image file whose stem `int()` rejects, and names that file |
| AvaJson.DirMatchesStuck | ava_json_generator.py:78 | once the scan fails, later files change nothing |
| AvaJson.ApplyConcat | ava_json_generator.py:53-82 | applying matches in two batches equals applying them in one |
| AvaJson.LastMatch | ava_json_generator.py:81-82 | the match whose assignment survives for an id: a match with that id, and no later match has that id |
| AvaJson.ApplySelect | ava_json_generator.py:62-82 | after any matches, the rows of an id carry the digest and name of its last match. If the table had no such row, they are in a single enlarged row. With no match, the rows are untouched |
| AvaJson.ManifestRowsFromMatches | ava_json_generator.py:60-85 | whatever the table, a manifest has at least one row per image file (more where `AVA.txt` repeats an id), and every row carries the id, digest and name of a file of that directory |
| AvaJson.ManifestLastRow | ava_json_generator.py:81-85 | with unique ids, the row `df.loc[[id]]` appends for a file is exactly one row, holding that file's id, digest and name |
| AvaJson.ManifestRowsPerFile | ava_json_generator.py:60-85 | with unique ids, a manifest has exactly one row per image file, and row `i` holds the id, digest and name of the `i`-th image file |
| AvaJson.ApplyUnique | ava_json_generator.py:81-82 | assignments keep ids unique when the table's ids were unique |
| AvaJson.ScanDirectory | ava_json_generator.py:56-85 | on success, the manifest and table are `ManifestRows` and `Apply` of the directory's matches. On a bad stem, the run fails on the name of the first image file whose stem `int()` rejects, with the assignments of the files before it made |
| AvaJson.SortDirectories | ava_json_generator.py:48-50 | the directories in ascending name order, a permutation of the listing |
| AvaJson.RunDirsTable | ava_json_generator.py:53-92 | the join finishes exactly when every directory's scan does. The table is then all matches applied in order, with one manifest per directory at `<cwd>/images-sorted/<dir>/<dir>.json` |
| AvaJson.RunDirsManifests | ava_json_generator.py:53-92 | from a table with unique ids, a finished join keeps ids unique, and each directory's manifest lines up row for row with that directory's matches |
| AvaJson.RunDirsFiles | ava_json_generator.py:53-92 | from a table with unique ids, the manifest of directory `i` of a finished join has one row per image file, in listing order, each with that file's id, digest and name |
| AvaJson.RunDirsStuck | ava_json_generator.py:53-78 | after the first failing directory, later directories change nothing |
| AvaJson.RunDirsAborted | ava_json_generator.py:53-92 | a join that fails, fails at one directory: the join over the directories before it finishes, that directory's scan fails, and the failure carries the finished part's manifests and the scan's bad name |
| AvaJson.RunDirsAbortedFiles | ava_json_generator.py:53-92 | a failed join leaves exactly the manifests of the directories before the failing one, one per directory at its path, and names the first image file of the failing directory whose stem `int()` rejects |
| AvaJson.AvaRunAborted | ava_json_generator.py:15-92 | an aborted run, in sorted directory order, leaves only the manifests of the directories before the failing one, at their paths, and its bad name is that directory's first image file whose stem `int()` rejects |
| AvaJson.ApplyRowOf | ava_json_generator.py:15-85 | after any matches, every row of the table is an `AVA.txt` line's row with the last match's digest and name (as loaded when no match has its id), or the all-NaN enlarged row of an id no line has |
| AvaJson.ManifestRowsIn | ava_json_generator.py:62-85 | every manifest row is a row of the table just after some file of the directory was written in |
| AvaJson.RunDirsRowsOf | ava_json_generator.py:53-92 | every row of every manifest a join writes is an `AVA.txt` line's row with its digest and name written in, or the all-NaN enlarged row of an id no line has |
| AvaJson.Found | ava_json_generator.py:95 | `AVA.json` holds exactly the table's rows with a non-empty hash |
| AvaJson.NotFound | ava_json_generator.py:98 | the not-found rows are exactly the table's rows with an empty hash |
| AvaJson.FoundNotFoundPartition | ava_json_generator.py:95-98 | found and not-found rows together are the table, row for row |
| AvaJson.ErrorReport | ava_json_generator.py:98-100 | a line is in `error.txt` exactly when some row of the table has an empty hash and the line holds that row's `Index` and `ImageId`; one line per such row, in table order |
| AvaJson.MatchedRows | ava_json_generator.py:81-82 | every row of an id some file had carries the last such file's digest and name |
| AvaJson.NotFoundAfterMatches | ava_json_generator.py:81-98 | from a freshly loaded table, a row is not found exactly when it was loaded and no file had its id |
| AvaJson.FoundAfterMatches | ava_json_generator.py:81-96 | every id some file had has a row in `AVA.json` |
| AvaJson.ErrorReportAfterMatches | ava_json_generator.py:15-100 | the error lines are exactly the `Index`/`ImageId` of the `AVA.txt` lines whose id no file had |
| AvaJson.AvaRunErrorReport | ava_json_generator.py:15-100 | in a finished run, `error.txt` lists exactly the lines of `AVA.txt` whose id no image file in any directory had |
| AvaJson.AvaRunFound | ava_json_generator.py:15-96 | in a finished run, every id some file had is in `AVA.json`, with the digest and name of the last such file in processing order |
| AvaJson.AvaRunFoundRows | ava_json_generator.py:15-96 | in a finished run, every row of `AVA.json` has an id some file had, and is that id's `AVA.txt` row, keeping its `Index`, `ImageId`, `ScoreCount` and `ScoreDictionary`, with the last such file's digest and name; or, when no line has the id, the all-NaN enlarged row |
| AvaJson.AvaRunManifests | ava_json_generator.py:15-92 | when no two lines of `AVA.txt` share an id, each manifest of a finished run has one row per image file of its directory, in listing order, with that file's id, SHA-256 digest and name. Each such row is that id's `AVA.txt` row with the two cells written, or the all-NaN enlarged row when no line has the id |
| AvaJson.GenerateAvaJson | ava_json_generator.py:15-100 | the script's outcome is `AvaRun`: the manifests, `AVA.json` and `error.txt`, or the manifests written before the bad name |
| ZipProcessor.ZipPathsSound | zipprocessor.py:10 | every path processed joins a walked directory with one of its `.zip` names |
| ZipProcessor.ZipPathsComplete | zipprocessor.py:10 | every `.zip` name of every walked directory is processed |
| ZipProcessor.ReadEntriesSome | zipprocessor.py:21-28 | reading an archive succeeds exactly when every entry can be read |
| ZipProcessor.ReadEntriesValue | zipprocessor.py:22-28 | a successful read gives one record per entry, in `infolist()` order, with no filtering |
| ZipProcessor.ReadEntriesStuck | zipprocessor.py:22-23 | once an entry fails to read, the archive fails |
| ZipProcessor.EntryRecordNames | zipprocessor.py:25-26 | a record's `file_name` is the last component of its `file_path` and holds no `/` |
| ZipProcessor.OutputPathOfStem | zipprocessor.py:36 | `<dir>/<stem>.zip` is written to `<out>/<stem>.json`, whatever the directory |
| ZipProcessor.OutputPathIgnoresDirectory | zipprocessor.py:36 | archives with the same name in different directories write the same manifest file |
| ZipProcessor.ProcessOneWritten | zipprocessor.py:18-41 | a manifest is written exactly when the archive opens, every entry reads and the measured time is non-zero. It holds one record per entry, in order, at `OutputPath`. Otherwise the archive is skipped under its own path |
| ZipProcessor.ReadArchive | zipprocessor.py:19-28 | the loop builds `file_data` as `ArchiveRecords` specifies |
| ZipProcessor.ProcessArchive | zipprocessor.py:18-41 | one archive's handling, the `except` branch included, equals `ProcessOne` |
| ZipProcessor.ZipRunEach | zipprocessor.py:17-41 | one outcome per archive; each archive's outcome depends on that archive alone, so a failure never affects the others |
| ZipProcessor.ProgressLabelUniform | zipprocessor.py:44-47 | both branches of the progress label give `<i+1>/<total>` |
| ZipProcessor.ProcessZipFiles | zipprocessor.py:9-48 | the outcomes are `ZipRun` of the walked archives, and the `i`-th progress line is `<i+1>/<total>` |
| ClipJson.ClipZipNamesMembers | image-clip-tool/clip_json_generator.py:44 | a name is processed exactly when a walked directory lists it and it ends in `.zip` |
| ClipJson.ArchivePathBasename | image-clip-tool/clip_json_generator.py:71 | the `zipfile` field is the walked name itself |
| ClipJson.OutputPathOfStem | image-clip-tool/clip_json_generator.py:84 | `<stem>.zip` is written to `<out>/<stem>_clip_vectors.json` |
| ClipJson.ImageMemberIgnoresCase | image-clip-tool/clip_json_generator.py:53 | the image test ignores the case of ASCII letters |
| ClipJson.ImageMembersSpec | image-clip-tool/clip_json_generator.py:53 | exactly the members whose lower-cased name has an image suffix are processed |
| ClipJson.GetClipVector | image-clip-tool/clip_json_generator.py:28-39 | `None` exactly when the file is missing; a vector exactly when the file is there and the model handles it |
| ClipJson.MemberStepRecords | image-clip-tool/clip_json_generator.py:57-78 | a member goes through exactly when it reads, re-encodes and embeds. It then yields exactly its expected record: the missing-file branch is never taken |
| ClipJson.MemberStepFiles | image-clip-tool/clip_json_generator.py:60-81 | a member touches only its own temporary file, which is gone once the member goes through |
| ClipJson.MembersRunOk | image-clip-tool/clip_json_generator.py:54-81 | an archive's members all go through exactly when each of them does |
| ClipJson.MembersRunRecords | image-clip-tool/clip_json_generator.py:54-81 | when they do, the records are one per image member, in order, whatever the working directory held |
| ClipJson.MembersRunFrame | image-clip-tool/clip_json_generator.py:60-81 | the working directory changes only in the members' temporary files, even on failure |
| ClipJson.MembersRunCleansUp | image-clip-tool/clip_json_generator.py:81 | after an archive that goes through, none of its temporary files is left |
| ClipJson.MembersRunStuck | image-clip-tool/clip_json_generator.py:54-81 | after a member raises, later members are never reached |
| ClipJson.WorkDir.Save | image-clip-tool/clip_json_generator.py:60 | saving creates or overwrites exactly that file |
| ClipJson.WorkDir.Remove | image-clip-tool/clip_json_generator.py:81 | removing needs the file and deletes exactly it |
| ClipJson.ProcessMember | image-clip-tool/clip_json_generator.py:57-81 | one member's handling equals `MemberStep`, the working directory included |
| ClipJson.ProcessMembers | image-clip-tool/clip_json_generator.py:50-81 | one archive's loop equals `MembersRun`: the records or the failure, and the working directory afterwards |
| ClipJson.AllArchivesOkEach | image-clip-tool/clip_json_generator.py:48-86 | all archives are fine exactly when each one opens and all its image members go through |
| ClipJson.ClipRunLast | image-clip-tool/clip_json_generator.py:48-86 | the last archive either adds its expected JSON file or ends the run without writing |
| ClipJson.ClipRunFinished | image-clip-tool/clip_json_generator.py:48-86 | the run finishes exactly when every archive opens and every image member in it goes through |
| ClipJson.ClipRunCount | image-clip-tool/clip_json_generator.py:48-86 | at most one JSON file per archive, and one for every archive exactly when the run finishes |
| ClipJson.ClipRunWritten | image-clip-tool/clip_json_generator.py:48-86 | the files written belong to the archives before the first failure, in order. Each is at its output path and holds exactly the expected records |
| ClipJson.ClipRunFiles | image-clip-tool/clip_json_generator.py:60-81 | no file outside the temporary names is touched. After a finished run no temporary name is left, so a same-named file that was there before is gone |
| ClipJson.ClipRunStuck | image-clip-tool/clip_json_generator.py:48-52 | after a failing archive, later archives are never reached |
| ClipJson.ClipJsonGenerator | image-clip-tool/clip_json_generator.py:17-88 | the tool's JSON files, its completion, and the working directory afterwards are `ClipRun` of the walked names |

## Left out

- `AVA.txt` is given already split into integer fields. The CSV reading
  (`read_csv` with a space separator) and the dtype of each column are not
  modelled.
- JSON and text rendering is not modelled: indentation, the rendering of
  NaN as `null`, and the column alignment of `to_string` in `error.txt`.
  A document is its path and its sequence of records.
- Line 88 (`df_new.set_index`) only changes the index of a frame that is
  written with `orient='records'`, so it does not change the output. It is
  not modelled.
- Pandas' change of column dtypes after an enlargement (integers becoming
  floats) is not modelled; the model's cells keep integer values.
- AvaJson.BuildTable: `sort_index` is not a stable sort, so the order of rows
  that share an image id is not fixed. The contract states only "sorted by
  id and a permutation of the loaded rows".
- An entry of `images-sorted` that is not a directory makes `os.listdir`
  raise. The model's tree has directories only.
- Errors the operating system raises outside the modelled branches are not
  modelled:
  - failing `open`, `os.makedirs` or `os.path.getsize`;
  - failing JSON writes;
  - an `AVA.txt` that does not exist.
- `int()` is modelled for ASCII text only. Unicode digits and Unicode
  whitespace, which Python also accepts, are not. `lower()` is modelled for
  ASCII letters only.
- The speed, size and time figures of `zipprocessor.py` are not modelled,
  because they are floating-point values that are only printed. The one
  place the clock matters is modelled: a zero elapsed time makes the
  division raise, and the archive is skipped. The clock is the parameter
  `elapsed`.
- `print`, `tqdm` progress bars and `argparse` are not modelled. The
  progress label of `zipprocessor.py` is modelled, because its two branches
  are worth comparing.
- CLIP, torch and PIL are functions given to the model (`ClipJson.Imaging`),
  and the loading of the model on a device is not modelled. What the vector
  contains, and how PIL re-encodes an image according to the file
  extension, are not modelled.
- `get_clip_vector`'s missing-file branch is modelled, but it is unreachable
  in a single process: `ClipJson.MemberStepRecords` proves that it is never
  taken. Another process deleting the temporary file is not modelled.
- The order in which `os.walk` and `os.listdir` list entries is an input of
  the model and is not derived from the file system.

