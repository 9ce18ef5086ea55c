/**
 * The AVA join (ava_json_generator.py): the rows of `AVA.txt` become a table
 * indexed by image id; every `.jpg`/`.png` file under `images-sorted/<dir>/`
 * writes its SHA-256 digest and its name into the row of the id its name
 * starts with; each directory gets a manifest of the rows its files touched;
 * at the end the table is split into the rows that found a file (`AVA.json`)
 * and those that did not (`error.txt`).
 */
module AvaJson {
  import opened Wrappers
  import opened PyText
  import opened PyPath
  import opened Sorting
  import opened Host

  const ImagesDir := "images-sorted"
  const FoundPath := "AVA.json"

  /** The rating-bucket column names, in column order. */
  const Labels: seq<string> := ["1", "2", "3", "4", "5", "6", "7", "8", "9", "10"]

  type Buckets = s: seq<int> | |s| == 10 witness [0, 0, 0, 0, 0, 0, 0, 0, 0, 0]

  /** One line of `AVA.txt` under the column names the script assigns. */
  datatype AvaLine = AvaLine(
    index: int, imageId: int, buckets: Buckets,
    semanticTag1: int, semanticTag2: int, challengeId: int)

  /**
   * One row of the data frame once the columns are rearranged: `key` is the
   * frame's index value; the other fields are the columns written to JSON, with
   * `None` for a NaN cell.
   */
  datatype Row = Row(
    key: int, index: Option<int>, imageId: Option<int>,
    fileHash: string, fileName: string,
    scoreCount: Option<int>, scoreDictionary: Option<seq<(string, int)>>)

  /** A line of `error.txt`: the `Index` and `ImageId` of a row that found no file. */
  datatype ErrorLine = ErrorLine(index: Option<int>, imageId: Option<int>)

  /** A file of `images-sorted/<dir>/`, as `os.listdir` names it, with its contents. */
  datatype DirFile = DirFile(name: string, data: Bytes)

  /** A sub-directory of `images-sorted/` and its files in `os.listdir` order. */
  datatype Directory = Directory(name: string, files: seq<DirFile>)

  /** What one image file writes into the table: its id, digest and name. */
  datatype Match = Match(id: int, hash: HexDigest, name: string)

  /** What a run leaves behind: the files written, or the files written before `int()` raised on `badName`. */
  datatype AvaOutcome =
    | Finished(manifests: seq<JsonFile<Row>>, found: JsonFile<Row>, errorReport: seq<ErrorLine>)
    | Aborted(manifests: seq<JsonFile<Row>>, badName: string)

  // ---------------------------------------------------------------------------
  // Building the table (lines 15-40)

  function Sum(s: seq<int>): int {
    if s == [] then 0 else s[0] + Sum(s[1..])
  }

  /** The `ScoreDictionary` cell: each bucket label paired with its count, in column order. */
  function ScoreDictionary(b: Buckets): seq<(string, int)> {
    seq(10, i requires 0 <= i < 10 => (Labels[i], b[i]))
  }

  function Keys(d: seq<(string, int)>): seq<string> {
    seq(|d|, i requires 0 <= i < |d| => d[i].0)
  }

  function Values(d: seq<(string, int)>): seq<int> {
    seq(|d|, i requires 0 <= i < |d| => d[i].1)
  }

  /** The row a line becomes: no hash or name yet, the score columns folded into a count and a dictionary. */
  function LoadRow(l: AvaLine): Row {
    Row(l.imageId, Some(l.index), Some(l.imageId), "", "",
        Some(Sum(l.buckets)), Some(ScoreDictionary(l.buckets)))
  }

  function LoadRows(lines: seq<AvaLine>): (rows: seq<Row>)
    ensures |rows| == |lines|
    ensures forall i :: 0 <= i < |lines| ==> rows[i] == LoadRow(lines[i])
  {
    if lines == [] then [] else [LoadRow(lines[0])] + LoadRows(lines[1..])
  }

  /** The order `sort_index` puts rows in. */
  predicate ByKey(a: Row, b: Row) {
    a.key <= b.key
  }

  lemma ByKeyTotalPreorder()
    ensures Total(ByKey) && Transitive(ByKey)
  {
  }

  /** The table after line 40: the loaded rows, ordered by ascending image id. */
  function BuildTable(lines: seq<AvaLine>): (t: seq<Row>)
    ensures SortedBy(t, ByKey)
    ensures multiset(t) == multiset(LoadRows(lines))
  {
    ByKeyTotalPreorder();
    InsertionSort(LoadRows(lines), ByKey)
  }

  /** A row as loaded: every column present, the count the sum of the dictionary's values, no file yet. */
  predicate FreshlyLoaded(r: Row) {
    && r.index.Some? && r.imageId == Some(r.key)
    && r.scoreCount.Some? && r.scoreDictionary.Some?
    && Keys(r.scoreDictionary.value) == Labels
    && r.scoreCount.value == Sum(Values(r.scoreDictionary.value))
    && r.fileHash == "" && r.fileName == ""
  }

  /** Every loaded row is freshly loaded. */
  lemma LoadRowFresh(l: AvaLine)
    ensures FreshlyLoaded(LoadRow(l))
  {
    assert Values(ScoreDictionary(l.buckets)) == l.buckets;
    assert Keys(ScoreDictionary(l.buckets)) == Labels;
  }

  /** The rows before sorting: one per line, each freshly loaded. */
  lemma LoadRowsMembers(lines: seq<AvaLine>)
    ensures forall r :: r in LoadRows(lines) ==> FreshlyLoaded(r)
    ensures forall r :: r in LoadRows(lines) <==> exists l :: l in lines && r == LoadRow(l)
  {
    var rows := LoadRows(lines);
    forall r | r in rows ensures FreshlyLoaded(r) && exists l :: l in lines && r == LoadRow(l) {
      var i :| 0 <= i < |rows| && rows[i] == r;
      LoadRowFresh(lines[i]);
      assert lines[i] in lines;
    }
    forall l | l in lines ensures LoadRow(l) in rows {
      var i :| 0 <= i < |lines| && lines[i] == l;
      assert rows[i] == LoadRow(l);
    }
  }

  /** What each row of the loaded table holds, and that every line has its row. */
  lemma {:induction false} BuildTableRows(lines: seq<AvaLine>)
    ensures |BuildTable(lines)| == |lines|
    ensures forall r :: r in BuildTable(lines) ==> FreshlyLoaded(r)
    ensures forall r :: r in BuildTable(lines) <==> exists l :: l in lines && r == LoadRow(l)
  {
    var t := BuildTable(lines);
    var rows := LoadRows(lines);
    assert |t| == |multiset(t)| == |multiset(rows)| == |rows|;
    forall r ensures r in t <==> r in rows {
      assert r in t <==> r in multiset(t);
      assert r in rows <==> r in multiset(rows);
    }
    LoadRowsMembers(lines);
  }

  /** No two lines of `AVA.txt` share an image id. */
  predicate DistinctIds(lines: seq<AvaLine>) {
    forall i, j :: 0 <= i < j < |lines| ==> lines[i].imageId != lines[j].imageId
  }

  /** With distinct image ids in `AVA.txt`, the loaded table has one row per id. */
  lemma BuildTableUnique(lines: seq<AvaLine>)
    requires DistinctIds(lines)
    ensures UniqueKeys(BuildTable(lines))
  {
    var rows := LoadRows(lines);
    assert UniqueKeys(rows);
    UniqueKeysPermuted(rows, BuildTable(lines));
  }

  // ---------------------------------------------------------------------------
  // The `.loc` operations on the table (lines 81-82 and 85)

  /** `df.loc[[k]]`: the rows labelled `k`, in table order. */
  function Select(t: seq<Row>, k: int): (r: seq<Row>)
    ensures |r| <= |t|
    ensures forall x {:trigger x in r} :: x in r ==> x in t && x.key == k
  {
    if t == [] then [] else (if t[0].key == k then [t[0]] else []) + Select(t[1..], k)
  }

  lemma {:induction false} SelectEmpty(t: seq<Row>, k: int)
    requires Select(t, k) == []
    ensures forall i :: 0 <= i < |t| ==> t[i].key != k
  {
    if t != [] {
      SelectEmpty(t[1..], k);
      assert forall i :: 1 <= i < |t| ==> t[i] == t[1..][i - 1];
    }
  }

  /** `Select` misses no row: every row labelled `k` is among those it returns. */
  lemma {:induction false} SelectComplete(t: seq<Row>, k: int, x: Row)
    requires x in t && x.key == k
    ensures x in Select(t, k)
  {
    if t[0] != x {
      SelectComplete(t[1..], k, x);
    }
  }

  lemma {:induction false} SelectAppend(a: seq<Row>, b: seq<Row>, k: int)
    ensures Select(a + b, k) == Select(a, k) + Select(b, k)
  {
    if a != [] {
      assert (a + b)[0] == a[0];
      assert (a + b)[1..] == a[1..] + b;
      SelectAppend(a[1..], b, k);
    } else {
      assert a + b == b;
    }
  }

  function Stamp(r: Row, hash: string, name: string): Row {
    r.(fileHash := hash, fileName := name)
  }

  function StampAll(s: seq<Row>, hash: string, name: string): (r: seq<Row>)
    ensures |r| == |s|
    ensures forall i :: 0 <= i < |s| ==> r[i] == Stamp(s[i], hash, name)
  {
    if s == [] then [] else [Stamp(s[0], hash, name)] + StampAll(s[1..], hash, name)
  }

  /** Writes `hash` and `name` into every row labelled `id`, leaving the others alone. */
  function StampLabelled(t: seq<Row>, id: int, hash: string, name: string): (r: seq<Row>)
    ensures |r| == |t|
    ensures forall i :: 0 <= i < |t| ==> r[i] == if t[i].key == id then Stamp(t[i], hash, name) else t[i]
  {
    if t == [] then []
    else [if t[0].key == id then Stamp(t[0], hash, name) else t[0]] + StampLabelled(t[1..], id, hash, name)
  }

  /** The row setting-with-enlargement appends: NaN everywhere except the two cells written. */
  function Enlarged(id: int, hash: string, name: string): Row {
    Row(id, None, None, hash, name, None, None)
  }

  /**
   * `df.loc[id, 'FileHash'] = hash; df.loc[id, 'FileName'] = name`: every row
   * labelled `id` gets the two cells; when no row has that label pandas appends one.
   */
  function Assign(t: seq<Row>, id: int, hash: string, name: string): (r: seq<Row>)
    ensures Select(t, id) == [] ==> r == t + [Enlarged(id, hash, name)]
    ensures Select(t, id) != [] ==> |r| == |t|
    ensures Select(t, id) != [] ==>
      forall i :: 0 <= i < |t| ==> r[i] == if t[i].key == id then Stamp(t[i], hash, name) else t[i]
  {
    if Select(t, id) == [] then t + [Enlarged(id, hash, name)] else StampLabelled(t, id, hash, name)
  }

  lemma {:induction false} StampLabelledSelect(t: seq<Row>, id: int, hash: string, name: string, k: int)
    ensures Select(StampLabelled(t, id, hash, name), k)
         == if k == id then StampAll(Select(t, k), hash, name) else Select(t, k)
  {
    if t != [] {
      StampLabelledSelect(t[1..], id, hash, name, k);
      var s := StampLabelled(t, id, hash, name);
      assert s[1..] == StampLabelled(t[1..], id, hash, name);
      if k == id && t[0].key == k {
        assert StampAll(Select(t, k), hash, name)
            == [Stamp(t[0], hash, name)] + StampAll(Select(t[1..], k), hash, name);
      }
    }
  }

  /** What an assignment of `hash` and `name` to id `k` makes of the rows `s` labelled `k`. */
  function Touched(s: seq<Row>, k: int, hash: string, name: string): seq<Row> {
    if s == [] then [Enlarged(k, hash, name)] else StampAll(s, hash, name)
  }

  lemma TouchedTwice(s: seq<Row>, k: int, h1: string, n1: string, h2: string, n2: string)
    ensures Touched(Touched(s, k, h1, n1), k, h2, n2) == Touched(s, k, h2, n2)
  {
  }

  /** After an assignment, the rows labelled `k` are stamped or appended when `k == id`, untouched otherwise. */
  lemma {:induction false} AssignSelect(t: seq<Row>, id: int, hash: string, name: string, k: int)
    ensures Select(Assign(t, id, hash, name), k)
         == if k != id then Select(t, k) else Touched(Select(t, id), id, hash, name)
  {
    if Select(t, id) == [] {
      SelectAppend(t, [Enlarged(id, hash, name)], k);
      assert Select([Enlarged(id, hash, name)], k) == if k == id then [Enlarged(id, hash, name)] else [];
    } else {
      StampLabelledSelect(t, id, hash, name, k);
    }
  }

  /** A later file with the same id overwrites the earlier one: only the last assignment shows. */
  lemma {:induction false} LastWriteWins(t: seq<Row>, id: int, h1: string, n1: string, h2: string, n2: string)
    ensures Assign(Assign(t, id, h1, n1), id, h2, n2) == Assign(t, id, h2, n2)
  {
    var t1 := Assign(t, id, h1, n1);
    if Select(t, id) == [] {
      SelectAppend(t, [Enlarged(id, h1, n1)], id);
      assert Select([Enlarged(id, h1, n1)], id) == [Enlarged(id, h1, n1)];
      assert Select(t1, id) != [];
      var a := Assign(t1, id, h2, n2);
      var b := Assign(t, id, h2, n2);
      assert |a| == |b|;
      forall i | 0 <= i < |a| ensures a[i] == b[i] {
        if i < |t| {
          SelectEmpty(t, id);
        }
      }
    } else {
      assert Select(t1, id) != [] by {
        var x := Select(t, id)[0];
        assert x in Select(t, id);
        var i :| 0 <= i < |t| && t[i] == x;
        SelectComplete(t1, id, t1[i]);
      }
    }
  }

  predicate UniqueKeys(t: seq<Row>) {
    forall i, j :: 0 <= i < j < |t| ==> t[i].key != t[j].key
  }

  lemma {:induction false} SelectNone(t: seq<Row>, k: int)
    requires forall i :: 0 <= i < |t| ==> t[i].key != k
    ensures Select(t, k) == []
  {
    if t != [] {
      SelectNone(t[1..], k);
    }
  }

  lemma {:induction false} SelectUnique(t: seq<Row>, k: int)
    requires UniqueKeys(t)
    ensures |Select(t, k)| <= 1
  {
    if t != [] {
      SelectUnique(t[1..], k);
      if t[0].key == k {
        assert forall i :: 0 <= i < |t[1..]| ==> t[1..][i] == t[i + 1];
        SelectNone(t[1..], k);
      }
    }
  }

  /** Reordering rows keeps labels unique. */
  lemma UniqueKeysPermuted(rows: seq<Row>, t: seq<Row>)
    requires UniqueKeys(rows) && multiset(t) == multiset(rows)
    ensures UniqueKeys(t)
  {
    forall i, j | 0 <= i < j < |t| ensures t[i].key != t[j].key {
      assert t[i] in multiset(rows) && t[j] in multiset(rows);
      var a :| 0 <= a < |rows| && rows[a] == t[i];
      var b :| 0 <= b < |rows| && rows[b] == t[j];
      DistinctAtMostOnce(rows, t[i]);
      OnceApart(t, i, j);
    }
  }

  /** An assignment keeps labels unique: it appends only a label no row carries. */
  lemma AssignUnique(t: seq<Row>, id: int, hash: string, name: string)
    requires UniqueKeys(t)
    ensures UniqueKeys(Assign(t, id, hash, name))
  {
    if Select(t, id) == [] {
      SelectEmpty(t, id);
    }
  }

  /** An assignment never changes a row's label or the columns loaded from `AVA.txt`. */
  lemma AssignKeepsLoadedColumns(t: seq<Row>, id: int, hash: string, name: string, i: int)
    requires 0 <= i < |t|
    ensures var r := Assign(t, id, hash, name)[i];
      r.key == t[i].key && r.index == t[i].index && r.imageId == t[i].imageId
      && r.scoreCount == t[i].scoreCount && r.scoreDictionary == t[i].scoreDictionary
  {
  }

  // ---------------------------------------------------------------------------
  // Files of one directory (lines 62-85)

  /** The names line 66 lets through. */
  predicate IsImageName(name: string) {
    EndsWith(name, ".jpg") || EndsWith(name, ".png")
  }

  /** `int(file.split('.')[0])`; `None` where Python raises `ValueError`. */
  function JoinKey(name: string): Option<int> {
    ParseInt(BeforeFirst(name, '.'))
  }

  /** A file named `<id>.<ext>` joins on `id`. */
  lemma JoinKeyOfIdName(id: int, ext: string)
    ensures JoinKey(ShowInt(id) + "." + ext) == Some(id)
  {
    var s := ShowInt(id);
    assert '.' !in s by {
      if id < 0 {
        assert forall i :: 1 <= i < |s| ==> s[i] == ShowNat(-id)[i - 1];
      }
    }
    assert s + "." + ext == s + ("." + ext);
    BeforeFirstConcat(s, "." + ext, '.');
    ParseShowInt(id);
  }

  /** The image files of a listing, in listing order. */
  function ImageFiles(files: seq<DirFile>): (r: seq<DirFile>)
    ensures forall f :: f in r <==> f in files && IsImageName(f.name)
    decreases |files|
  {
    if files == [] then []
    else
      var f := files[|files| - 1];
      ImageFiles(files[..|files| - 1]) + (if IsImageName(f.name) then [f] else [])
  }

  /**
   * What scanning `files` in order writes into the table: one match per image
   * file, or the name of the first image file whose stem `int()` rejects.
   */
  function DirMatches(files: seq<DirFile>, sha256: Bytes -> HexDigest): Result<seq<Match>, string>
    decreases |files|
  {
    if files == [] then Ok([])
    else
      var f := files[|files| - 1];
      match DirMatches(files[..|files| - 1], sha256)
      case Err(bad) => Err(bad)
      case Ok(ms) =>
        if !IsImageName(f.name) then Ok(ms)
        else match JoinKey(f.name)
          case None => Err(f.name)
          case Some(id) => Ok(ms + [Match(id, sha256(f.data), f.name)])
  }

  /** One more file: the matches so far, then that file. */
  lemma DirMatchesNext(files: seq<DirFile>, i: nat, sha256: Bytes -> HexDigest)
    requires i < |files|
    ensures var f := files[i];
      DirMatches(files[..i + 1], sha256) ==
        match DirMatches(files[..i], sha256)
        case Err(bad) => Err(bad)
        case Ok(ms) =>
          if !IsImageName(f.name) then Ok(ms)
          else match JoinKey(f.name)
            case None => Err(f.name)
            case Some(id) => Ok(ms + [Match(id, sha256(f.data), f.name)])
  {
    assert files[..i + 1][..i] == files[..i];
  }

  function MatchOf(f: DirFile, sha256: Bytes -> HexDigest): Match
    requires JoinKey(f.name).Some?
  {
    Match(JoinKey(f.name).value, sha256(f.data), f.name)
  }

  /** Every image file, and only the image files, are read and matched, in listing order. */
  lemma {:induction false} DirMatchesOk(files: seq<DirFile>, sha256: Bytes -> HexDigest)
    requires DirMatches(files, sha256).Ok?
    ensures var imgs := ImageFiles(files);
      var ms := DirMatches(files, sha256).value;
      && |ms| == |imgs|
      && forall i :: 0 <= i < |imgs| ==> JoinKey(imgs[i].name).Some? && ms[i] == MatchOf(imgs[i], sha256)
    decreases |files|
  {
    if files != [] {
      var init := files[..|files| - 1];
      var f := files[|files| - 1];
      DirMatchesOk(init, sha256);
      var ms0 := DirMatches(init, sha256).value;
      var imgs0 := ImageFiles(init);
      if IsImageName(f.name) {
        var ms := ms0 + [MatchOf(f, sha256)];
        var imgs := imgs0 + [f];
        assert DirMatches(files, sha256).value == ms;
        assert ImageFiles(files) == imgs;
        assert JoinKey(f.name).Some?;
        forall i | 0 <= i < |imgs| ensures JoinKey(imgs[i].name).Some? && ms[i] == MatchOf(imgs[i], sha256) {
          if i < |imgs0| {
            assert imgs[i] == imgs0[i] && ms[i] == ms0[i];
          } else {
            assert imgs[i] == f && ms[i] == MatchOf(f, sha256);
          }
        }
      } else {
        assert DirMatches(files, sha256).value == ms0;
        assert ImageFiles(files) == imgs0;
      }
    }
  }

  /**
   * A scan fails only on an image file whose stem `int()` rejects, and on the
   * first such file: the scan of every file before it succeeds.
   */
  lemma {:induction false} DirMatchesErr(files: seq<DirFile>, sha256: Bytes -> HexDigest)
    requires DirMatches(files, sha256).Err?
    ensures exists n :: (0 <= n < |files| && DirMatches(files[..n], sha256).Ok?
      && files[n].name == DirMatches(files, sha256).error
      && IsImageName(files[n].name) && JoinKey(files[n].name).None?)
    decreases |files|
  {
    var init := files[..|files| - 1];
    if DirMatches(init, sha256).Err? {
      DirMatchesErr(init, sha256);
      var n :| 0 <= n < |init| && DirMatches(init[..n], sha256).Ok?
        && init[n].name == DirMatches(init, sha256).error
        && IsImageName(init[n].name) && JoinKey(init[n].name).None?;
      assert init[..n] == files[..n];
    } else {
      assert files[..|files| - 1] == init;
    }
  }

  /** Once some prefix of the listing fails, the whole listing fails on the same name. */
  lemma {:induction false} DirMatchesStuck(files: seq<DirFile>, n: nat, sha256: Bytes -> HexDigest)
    requires n <= |files| && DirMatches(files[..n], sha256).Err?
    ensures DirMatches(files, sha256) == DirMatches(files[..n], sha256)
    decreases |files| - n
  {
    if n < |files| {
      assert files[..n + 1][..n] == files[..n];
      DirMatchesStuck(files, n + 1, sha256);
    } else {
      assert files[..n] == files;
    }
  }

  /** The table after the matches, applied in order. */
  function Apply(t: seq<Row>, ms: seq<Match>): seq<Row>
    decreases |ms|
  {
    if ms == [] then t
    else
      var m := ms[|ms| - 1];
      Assign(Apply(t, ms[..|ms| - 1]), m.id, m.hash, m.name)
  }

  /** A directory's manifest: after each match, the rows `df.loc[[id]]` holds at that moment. */
  function ManifestRows(t: seq<Row>, ms: seq<Match>): seq<Row>
    decreases |ms|
  {
    if ms == [] then []
    else
      var m := ms[|ms| - 1];
      ManifestRows(t, ms[..|ms| - 1]) + Select(Apply(t, ms), m.id)
  }

  /** One more match: its assignment on the table, and the rows of its id appended to the manifest. */
  lemma ApplyNext(t: seq<Row>, ms: seq<Match>, m: Match)
    ensures Apply(t, ms + [m]) == Assign(Apply(t, ms), m.id, m.hash, m.name)
    ensures ManifestRows(t, ms + [m]) == ManifestRows(t, ms) + Select(Apply(t, ms + [m]), m.id)
  {
    assert (ms + [m])[..|ms|] == ms;
  }

  lemma {:induction false} ApplyConcat(t: seq<Row>, a: seq<Match>, b: seq<Match>)
    ensures Apply(t, a + b) == Apply(Apply(t, a), b)
    decreases |b|
  {
    if b == [] {
      assert a + b == a;
    } else {
      assert (a + b)[..|a + b| - 1] == a + b[..|b| - 1];
      ApplyConcat(t, a, b[..|b| - 1]);
    }
  }

  predicate HasId(ms: seq<Match>, k: int) {
    exists i :: 0 <= i < |ms| && ms[i].id == k
  }

  /** The last match with id `k`. */
  function LastMatch(ms: seq<Match>, k: int): (m: Match)
    requires HasId(ms, k)
    ensures m in ms && m.id == k
    ensures exists i :: 0 <= i < |ms| && ms[i] == m && forall j :: i < j < |ms| ==> ms[j].id != k
    decreases |ms|
  {
    var last := ms[|ms| - 1];
    if last.id == k then last
    else
      var init := ms[..|ms| - 1];
      assert HasId(init, k) by {
        var i :| 0 <= i < |ms| && ms[i].id == k;
        assert init[i] == ms[i];
      }
      var m := LastMatch(init, k);
      assert exists i :: 0 <= i < |ms| && ms[i] == m && forall j :: i < j < |ms| ==> ms[j].id != k by {
        var i :| 0 <= i < |init| && init[i] == m && forall j :: i < j < |init| ==> init[j].id != k;
        assert ms[i] == m;
        assert forall j :: i < j < |ms| ==> ms[j].id != k by {
          forall j | i < j < |ms| ensures ms[j].id != k {
            if j < |init| { assert ms[j] == init[j]; }
          }
        }
      }
      m
  }

  lemma LastMatchSkips(ms: seq<Match>, k: int)
    requires ms != [] && ms[|ms| - 1].id != k
    ensures HasId(ms, k) == HasId(ms[..|ms| - 1], k)
    ensures HasId(ms, k) ==> LastMatch(ms, k) == LastMatch(ms[..|ms| - 1], k)
  {
    if HasId(ms, k) {
      var i :| 0 <= i < |ms| && ms[i].id == k;
      assert ms[..|ms| - 1][i] == ms[i];
    }
  }

  /**
   * The rows labelled `k` after a sequence of matches: unchanged when no match
   * has id `k`; otherwise carrying the digest and name of the LAST such match,
   * in a row of their own if the table had none labelled `k`.
   */
  lemma {:induction false} ApplySelect(t: seq<Row>, ms: seq<Match>, k: int)
    ensures Select(Apply(t, ms), k)
         == if HasId(ms, k) then Touched(Select(t, k), k, LastMatch(ms, k).hash, LastMatch(ms, k).name)
            else Select(t, k)
    decreases |ms|
  {
    if ms != [] {
      var init := ms[..|ms| - 1];
      var m := ms[|ms| - 1];
      var a := Apply(t, init);
      assert Apply(t, ms) == Assign(a, m.id, m.hash, m.name);
      ApplySelect(t, init, k);
      AssignSelect(a, m.id, m.hash, m.name, k);
      if m.id != k {
        LastMatchSkips(ms, k);
      } else {
        assert HasId(ms, k) by { assert ms[|ms| - 1].id == k; }
        assert LastMatch(ms, k) == m;
        if HasId(init, k) {
          var p := LastMatch(init, k);
          TouchedTwice(Select(t, k), k, p.hash, p.name, m.hash, m.name);
        }
      }
    }
  }

  /** Every row of a directory's manifest carries the digest and name of the image file that put it there. */
  lemma {:induction false} ManifestRowsFromMatches(t: seq<Row>, ms: seq<Match>)
    ensures |ManifestRows(t, ms)| >= |ms|
    ensures forall r :: r in ManifestRows(t, ms) ==>
      exists m :: m in ms && r.key == m.id && r.fileHash == m.hash && r.fileName == m.name
    decreases |ms|
  {
    if ms != [] {
      var init := ms[..|ms| - 1];
      var m := ms[|ms| - 1];
      ManifestRowsFromMatches(t, init);
      ApplySelect(t, ms, m.id);
      assert HasId(ms, m.id) by { assert ms[|ms| - 1].id == m.id; }
      var last := LastMatch(ms, m.id);
      assert last == m;
      var sel := Select(Apply(t, ms), m.id);
      assert |sel| >= 1;
      forall r | r in sel ensures r.key == m.id && r.fileHash == m.hash && r.fileName == m.name {
        if Select(t, m.id) != [] {
          var i :| 0 <= i < |sel| && sel[i] == r;
          assert r == Stamp(Select(t, m.id)[i], m.hash, m.name);
          assert Select(t, m.id)[i] in Select(t, m.id);
        }
      }
      forall r | r in ManifestRows(t, ms)
        ensures exists m' :: m' in ms && r.key == m'.id && r.fileHash == m'.hash && r.fileName == m'.name
      {
        if r in ManifestRows(t, init) {
          var m' :| m' in init && r.key == m'.id && r.fileHash == m'.hash && r.fileName == m'.name;
          assert m' in ms;
        } else {
          assert r in sel && m in ms;
        }
      }
    }
  }

  lemma {:induction false} ApplyUnique(t: seq<Row>, ms: seq<Match>)
    requires UniqueKeys(t)
    ensures UniqueKeys(Apply(t, ms))
    decreases |ms|
  {
    if ms != [] {
      var m := ms[|ms| - 1];
      ApplyUnique(t, ms[..|ms| - 1]);
      AssignUnique(Apply(t, ms[..|ms| - 1]), m.id, m.hash, m.name);
    }
  }

  /** With one row per id, the last file of a scan adds exactly one manifest row, carrying that file's match. */
  lemma ManifestLastRow(t: seq<Row>, ms: seq<Match>)
    requires UniqueKeys(t) && ms != []
    ensures var m := ms[|ms| - 1];
      var sel := Select(Apply(t, ms), m.id);
      && |sel| == 1
      && sel[0].key == m.id && sel[0].fileHash == m.hash && sel[0].fileName == m.name
  {
    var m := ms[|ms| - 1];
    ApplyUnique(t, ms);
    SelectUnique(Apply(t, ms), m.id);
    ApplySelect(t, ms, m.id);
    assert HasId(ms, m.id) by { assert ms[|ms| - 1].id == m.id; }
    assert LastMatch(ms, m.id) == m;
    if Select(t, m.id) != [] {
      assert Select(t, m.id)[0] in Select(t, m.id);
    }
  }

  /**
   * With one row per id, a directory's manifest lines up with its image files:
   * row `i` is the row of match `i`, carrying that file's id, digest and name.
   */
  lemma {:induction false} ManifestRowsPerFile(t: seq<Row>, ms: seq<Match>)
    requires UniqueKeys(t)
    ensures |ManifestRows(t, ms)| == |ms|
    ensures forall i :: 0 <= i < |ms| ==>
      && ManifestRows(t, ms)[i].key == ms[i].id
      && ManifestRows(t, ms)[i].fileHash == ms[i].hash
      && ManifestRows(t, ms)[i].fileName == ms[i].name
    decreases |ms|
  {
    if ms != [] {
      var n := |ms| - 1;
      var init := ms[..n];
      ManifestRowsPerFile(t, init);
      ManifestLastRow(t, ms);
      var sel := Select(Apply(t, ms), ms[n].id);
      var mr := ManifestRows(t, ms);
      assert mr == ManifestRows(t, init) + sel;
      forall i | 0 <= i < |ms|
        ensures mr[i].key == ms[i].id && mr[i].fileHash == ms[i].hash && mr[i].fileName == ms[i].name
      {
        if i < n {
          assert mr[i] == ManifestRows(t, init)[i] && ms[i] == init[i];
        } else {
          assert mr[i] == sel[0];
        }
      }
    }
  }


  // ---------------------------------------------------------------------------
  // The directory loop (lines 48-92)

  predicate ByName(a: Directory, b: Directory) {
    StrLe(a.name, b.name)
  }

  /** `sorted(os.listdir(IMAGES_DIR))`: the directories in ascending name order. */
  function SortDirectories(tree: seq<Directory>): (r: seq<Directory>)
    ensures SortedBy(r, ByName)
    ensures multiset(r) == multiset(tree)
    ensures |r| == |tree|
  {
    assert Total(ByName) && Transitive(ByName) by {
      forall a, b ensures ByName(a, b) || ByName(b, a) { StrLeTotalAt(a.name, b.name); }
      forall a, b, c | ByName(a, b) && ByName(b, c) ensures ByName(a, c) {
        StrLeTransitiveAt(a.name, b.name, c.name);
      }
    }
    var r := InsertionSort(tree, ByName);
    assert |r| == |multiset(r)| == |multiset(tree)| == |tree|;
    r
  }

  /** Where a directory's manifest goes: `<cwd>/images-sorted/<dir>/<dir>.json`. */
  function ManifestPath(cwd: string, dir: string): string {
    JoinAll([cwd, ImagesDir, dir, dir]) + ".json"
  }

  datatype JoinState = JoinState(rows: seq<Row>, manifests: seq<JsonFile<Row>>)

  /** The directories processed in order; on failure, the manifests already written and the bad name. */
  function RunDirs(t: seq<Row>, dirs: seq<Directory>, sha256: Bytes -> HexDigest, cwd: string)
    : Result<JoinState, (seq<JsonFile<Row>>, string)>
    decreases |dirs|
  {
    if dirs == [] then Ok(JoinState(t, []))
    else
      var d := dirs[|dirs| - 1];
      match RunDirs(t, dirs[..|dirs| - 1], sha256, cwd)
      case Err(e) => Err(e)
      case Ok(st) =>
        match DirMatches(d.files, sha256)
        case Err(bad) => Err((st.manifests, bad))
        case Ok(ms) =>
          Ok(JoinState(Apply(st.rows, ms),
                       st.manifests + [JsonFile(ManifestPath(cwd, d.name), ManifestRows(st.rows, ms))]))
  }

  /** One more directory: the run so far, then that directory's scan. */
  lemma RunDirsNext(t: seq<Row>, dirs: seq<Directory>, i: nat, sha256: Bytes -> HexDigest, cwd: string)
    requires i < |dirs|
    ensures var d := dirs[i];
      RunDirs(t, dirs[..i + 1], sha256, cwd) ==
        match RunDirs(t, dirs[..i], sha256, cwd)
        case Err(e) => Err(e)
        case Ok(st) =>
          match DirMatches(d.files, sha256)
          case Err(bad) => Err((st.manifests, bad))
          case Ok(ms) =>
            Ok(JoinState(Apply(st.rows, ms),
                         st.manifests + [JsonFile(ManifestPath(cwd, d.name), ManifestRows(st.rows, ms))]))
  {
    assert dirs[..i + 1][..i] == dirs[..i];
  }

  /** `df[df['FileHash'] != '']`, in table order. */
  function Found(t: seq<Row>): (r: seq<Row>)
    ensures forall x :: x in r <==> x in t && x.fileHash != ""
  {
    if t == [] then [] else (if t[0].fileHash != "" then [t[0]] else []) + Found(t[1..])
  }

  /** `df[df['FileHash'] == '']`, in table order. */
  function NotFound(t: seq<Row>): (r: seq<Row>)
    ensures forall x :: x in r <==> x in t && x.fileHash == ""
  {
    if t == [] then [] else (if t[0].fileHash == "" then [t[0]] else []) + NotFound(t[1..])
  }

  /** The found and not-found rows split the table: together they are the table, row for row. */
  lemma {:induction false} FoundNotFoundPartition(t: seq<Row>)
    ensures multiset(Found(t)) + multiset(NotFound(t)) == multiset(t)
    ensures |Found(t)| + |NotFound(t)| == |t|
  {
    if t != [] {
      FoundNotFoundPartition(t[1..]);
      assert t == [t[0]] + t[1..];
    }
  }

  /** `error.txt`: the `Index` and `ImageId` columns of the rows that found no file. */
  function ErrorReport(t: seq<Row>): (r: seq<ErrorLine>)
    ensures |r| == |NotFound(t)|
    ensures forall i :: 0 <= i < |r| ==> r[i] == ErrorLine(NotFound(t)[i].index, NotFound(t)[i].imageId)
    ensures forall e :: e in r <==> exists x :: x in t && x.fileHash == "" && e == ErrorLine(x.index, x.imageId)
  {
    var nf := NotFound(t);
    seq(|nf|, i requires 0 <= i < |nf| => ErrorLine(nf[i].index, nf[i].imageId))
  }

  /** The whole script: load, sort, join directory by directory, then write `AVA.json` and `error.txt`. */
  function AvaRun(lines: seq<AvaLine>, tree: seq<Directory>, sha256: Bytes -> HexDigest, cwd: string)
    : AvaOutcome
  {
    match RunDirs(BuildTable(lines), SortDirectories(tree), sha256, cwd)
    case Err((written, bad)) => Aborted(written, bad)
    case Ok(st) => Finished(st.manifests, JsonFile(FoundPath, Found(st.rows)), ErrorReport(st.rows))
  }

  /** All matches of a run, directory after directory. */
  function RunMatches(dirs: seq<Directory>, sha256: Bytes -> HexDigest): Result<seq<Match>, string>
    decreases |dirs|
  {
    if dirs == [] then Ok([])
    else
      match RunMatches(dirs[..|dirs| - 1], sha256)
      case Err(bad) => Err(bad)
      case Ok(ms) =>
        match DirMatches(dirs[|dirs| - 1].files, sha256)
        case Err(bad) => Err(bad)
        case Ok(ms') => Ok(ms + ms')
  }

  /** A run finishes exactly when every directory's scan does, and its table is all matches applied in order. */
  lemma {:induction false} RunDirsTable(t: seq<Row>, dirs: seq<Directory>, sha256: Bytes -> HexDigest, cwd: string)
    ensures RunDirs(t, dirs, sha256, cwd).Ok? == RunMatches(dirs, sha256).Ok?
    ensures RunDirs(t, dirs, sha256, cwd).Ok? ==>
      && RunDirs(t, dirs, sha256, cwd).value.rows == Apply(t, RunMatches(dirs, sha256).value)
      && |RunDirs(t, dirs, sha256, cwd).value.manifests| == |dirs|
      && forall i :: 0 <= i < |dirs| ==>
           RunDirs(t, dirs, sha256, cwd).value.manifests[i].path == ManifestPath(cwd, dirs[i].name)
    decreases |dirs|
  {
    if dirs != [] {
      var init := dirs[..|dirs| - 1];
      RunDirsTable(t, init, sha256, cwd);
      var r := RunDirs(t, init, sha256, cwd);
      if r.Ok? {
        match DirMatches(dirs[|dirs| - 1].files, sha256)
        case Err(_) =>
        case Ok(ms') =>
          ApplyConcat(t, RunMatches(init, sha256).value, ms');
      }
    }
  }

  /** Row `i` of a manifest is the row of match `i`: same id, digest and file name. */
  predicate LinesUp(rows: seq<Row>, ms: seq<Match>) {
    && |rows| == |ms|
    && forall i :: 0 <= i < |ms| ==>
         rows[i].key == ms[i].id && rows[i].fileHash == ms[i].hash && rows[i].fileName == ms[i].name
  }

  /**
   * From a table with one row per id, a finished run keeps one row per id, and
   * the manifest of each directory lines up with that directory's matches.
   */
  lemma {:induction false} RunDirsManifests(t: seq<Row>, dirs: seq<Directory>, sha256: Bytes -> HexDigest, cwd: string)
    requires UniqueKeys(t) && RunDirs(t, dirs, sha256, cwd).Ok?
    ensures UniqueKeys(RunDirs(t, dirs, sha256, cwd).value.rows)
    ensures |RunDirs(t, dirs, sha256, cwd).value.manifests| == |dirs|
    ensures forall i :: 0 <= i < |dirs| ==>
      && DirMatches(dirs[i].files, sha256).Ok?
      && LinesUp(RunDirs(t, dirs, sha256, cwd).value.manifests[i].records, DirMatches(dirs[i].files, sha256).value)
    decreases |dirs|
  {
    if dirs != [] {
      var n := |dirs| - 1;
      var init := dirs[..n];
      var st := RunDirs(t, init, sha256, cwd).value;
      RunDirsManifests(t, init, sha256, cwd);
      var ms := DirMatches(dirs[n].files, sha256).value;
      ApplyUnique(st.rows, ms);
      ManifestRowsPerFile(st.rows, ms);
      var fin := RunDirs(t, dirs, sha256, cwd).value;
      assert fin.manifests == st.manifests + [JsonFile(ManifestPath(cwd, dirs[n].name), ManifestRows(st.rows, ms))];
      forall i | 0 <= i < |dirs|
        ensures DirMatches(dirs[i].files, sha256).Ok?
             && LinesUp(fin.manifests[i].records, DirMatches(dirs[i].files, sha256).value)
      {
        if i < n {
          assert dirs[i] == init[i] && fin.manifests[i] == st.manifests[i];
        }
      }
    }
  }

  /** The manifest of directory `i` in a finished run, file by file. */
  lemma RunDirsFiles(t: seq<Row>, dirs: seq<Directory>, sha256: Bytes -> HexDigest, cwd: string, i: int)
    requires UniqueKeys(t) && RunDirs(t, dirs, sha256, cwd).Ok? && 0 <= i < |dirs|
    ensures |RunDirs(t, dirs, sha256, cwd).value.manifests| == |dirs|
    ensures var imgs := ImageFiles(dirs[i].files);
      var rows := RunDirs(t, dirs, sha256, cwd).value.manifests[i].records;
      && |rows| == |imgs|
      && forall j :: 0 <= j < |imgs| ==>
           && JoinKey(imgs[j].name).Some?
           && rows[j].key == JoinKey(imgs[j].name).value
           && rows[j].fileHash == sha256(imgs[j].data)
           && rows[j].fileName == imgs[j].name
  {
    RunDirsManifests(t, dirs, sha256, cwd);
    DirMatchesOk(dirs[i].files, sha256);
  }

  /**
   * When no two lines of `AVA.txt` share an id, each manifest of a finished run
   * has exactly one row per image file of its directory, in listing order, with
   * that file's id, SHA-256 digest and name; each is that id's `AVA.txt` row
   * with the two cells written, or the enlarged row when no line has the id.
   */
  lemma AvaRunManifests(lines: seq<AvaLine>, tree: seq<Directory>, sha256: Bytes -> HexDigest, cwd: string, i: int)
    requires DistinctIds(lines) && AvaRun(lines, tree, sha256, cwd).Finished?
    requires 0 <= i < |tree|
    ensures |AvaRun(lines, tree, sha256, cwd).manifests| == |tree|
    ensures var imgs := ImageFiles(SortDirectories(tree)[i].files);
      var rows := AvaRun(lines, tree, sha256, cwd).manifests[i].records;
      && |rows| == |imgs|
      && forall j :: 0 <= j < |imgs| ==>
           && JoinKey(imgs[j].name).Some?
           && rows[j].key == JoinKey(imgs[j].name).value
           && rows[j].fileHash == sha256(imgs[j].data)
           && rows[j].fileName == imgs[j].name
           && RowOf(lines, rows[j], sha256(imgs[j].data), imgs[j].name)
  {
    var dirs := SortDirectories(tree);
    var t0 := BuildTable(lines);
    BuildTableUnique(lines);
    RunDirsFiles(t0, dirs, sha256, cwd, i);
    RunDirsRowsOf(lines, dirs, sha256, cwd);
    var rows := AvaRun(lines, tree, sha256, cwd).manifests[i].records;
    assert forall j :: 0 <= j < |rows| ==> rows[j] in rows;
  }


  /** The rows labelled `k` after matches that include `k` carry the last such match's digest and name. */
  lemma MatchedRows(t: seq<Row>, ms: seq<Match>, k: int)
    requires HasId(ms, k)
    ensures Select(Apply(t, ms), k) != []
    ensures forall r :: r in Apply(t, ms) && r.key == k ==>
      r.fileHash == LastMatch(ms, k).hash && r.fileName == LastMatch(ms, k).name
  {
    var a := Apply(t, ms);
    var m := LastMatch(ms, k);
    ApplySelect(t, ms, k);
    forall r | r in a && r.key == k ensures r.fileHash == m.hash && r.fileName == m.name {
      SelectComplete(a, k, r);
      if Select(t, k) != [] {
        var i :| 0 <= i < |Select(a, k)| && Select(a, k)[i] == r;
      }
    }
  }

  /**
   * Starting from a table where no row has a file, a row ends up in `error.txt`
   * exactly when it was loaded and no image file anywhere had its id.
   */
  lemma {:induction false} NotFoundAfterMatches(t: seq<Row>, ms: seq<Match>)
    requires forall r :: r in t ==> r.fileHash == ""
    ensures forall r :: r in NotFound(Apply(t, ms)) <==> r in t && !HasId(ms, r.key)
  {
    var a := Apply(t, ms);
    forall r ensures r in NotFound(a) <==> r in t && !HasId(ms, r.key) {
      var k := r.key;
      ApplySelect(t, ms, k);
      if r in t && !HasId(ms, k) {
        SelectComplete(t, k, r);
      }
      if r in a && HasId(ms, k) {
        MatchedRows(t, ms, k);
      }
      if r in a && !HasId(ms, k) {
        SelectComplete(a, k, r);
      }
    }
  }

  /** Every id some image file had is found: `AVA.json` holds a row for it. */
  lemma FoundAfterMatches(t: seq<Row>, ms: seq<Match>, k: int)
    requires HasId(ms, k)
    ensures Select(Found(Apply(t, ms)), k) != []
  {
    var a := Apply(t, ms);
    MatchedRows(t, ms, k);
    var r := Select(a, k)[0];
    assert r in Select(a, k);
    SelectComplete(Found(a), k, r);
  }

  /**
   * In a finished run, `error.txt` lists the `Index` and `ImageId` of exactly
   * the lines of `AVA.txt` whose id no image file, in any directory, had.
   */
  lemma AvaRunErrorReport(lines: seq<AvaLine>, tree: seq<Directory>, sha256: Bytes -> HexDigest, cwd: string)
    requires AvaRun(lines, tree, sha256, cwd).Finished?
    ensures RunMatches(SortDirectories(tree), sha256).Ok?
    ensures var ms := RunMatches(SortDirectories(tree), sha256).value;
      forall e :: e in AvaRun(lines, tree, sha256, cwd).errorReport <==>
        exists l :: l in lines && !HasId(ms, l.imageId) && e == ErrorLine(Some(l.index), Some(l.imageId))
  {
    var dirs := SortDirectories(tree);
    RunDirsTable(BuildTable(lines), dirs, sha256, cwd);
    ErrorReportAfterMatches(lines, RunMatches(dirs, sha256).value);
  }

  /** The error lines after some matches: one for each loaded line whose id no match carries. */
  lemma ErrorReportAfterMatches(lines: seq<AvaLine>, ms: seq<Match>)
    ensures forall e :: e in ErrorReport(Apply(BuildTable(lines), ms)) <==>
      exists l :: l in lines && !HasId(ms, l.imageId) && e == ErrorLine(Some(l.index), Some(l.imageId))
  {
    var t0 := BuildTable(lines);
    var rows := Apply(t0, ms);
    BuildTableRows(lines);
    NotFoundAfterMatches(t0, ms);
    var report := ErrorReport(rows);
    var nf := NotFound(rows);
    forall e ensures e in report <==>
      exists l :: l in lines && !HasId(ms, l.imageId) && e == ErrorLine(Some(l.index), Some(l.imageId))
    {
      if e in report {
        var i :| 0 <= i < |report| && report[i] == e;
        assert nf[i] in nf;
        var l :| l in lines && nf[i] == LoadRow(l);
        assert e == ErrorLine(Some(l.index), Some(l.imageId));
      }
      if exists l :: l in lines && !HasId(ms, l.imageId) && e == ErrorLine(Some(l.index), Some(l.imageId)) {
        var l :| l in lines && !HasId(ms, l.imageId) && e == ErrorLine(Some(l.index), Some(l.imageId));
        assert LoadRow(l) in t0;
        assert LoadRow(l) in nf;
        var i :| 0 <= i < |nf| && nf[i] == LoadRow(l);
        assert report[i] == e;
      }
    }
  }

  /**
   * A row holding `hash` and `name` that comes from `AVA.txt`: the row of a
   * line with its id, with the two cells written; or, when no line has its id,
   * the enlarged row, NaN in every loaded column.
   */
  predicate RowOf(lines: seq<AvaLine>, r: Row, hash: string, name: string) {
    || (exists l :: l in lines && l.imageId == r.key && r == Stamp(LoadRow(l), hash, name))
    || ((forall l :: l in lines ==> l.imageId != r.key) && r == Enlarged(r.key, hash, name))
  }

  /**
   * Every row of the table after any matches comes from `AVA.txt`: with the
   * digest and name of the last match of its id, or as loaded when no match
   * has its id.
   */
  lemma ApplyRowOf(lines: seq<AvaLine>, ms: seq<Match>, r: Row)
    requires r in Apply(BuildTable(lines), ms)
    ensures HasId(ms, r.key) ==> RowOf(lines, r, LastMatch(ms, r.key).hash, LastMatch(ms, r.key).name)
    ensures !HasId(ms, r.key) ==> RowOf(lines, r, "", "")
    ensures RowOf(lines, r, r.fileHash, r.fileName)
  {
    var t0 := BuildTable(lines);
    var k := r.key;
    BuildTableRows(lines);
    ApplySelect(t0, ms, k);
    SelectComplete(Apply(t0, ms), k, r);
    var sel := Select(t0, k);
    if HasId(ms, k) {
      var m := LastMatch(ms, k);
      if sel == [] {
        SelectEmpty(t0, k);
        forall l | l in lines ensures l.imageId != k {
          assert LoadRow(l) in t0;
        }
      } else {
        var i :| 0 <= i < |sel| && Stamp(sel[i], m.hash, m.name) == r;
        assert sel[i] in sel;
        var l :| l in lines && sel[i] == LoadRow(l);
      }
    } else {
      var l :| l in lines && r == LoadRow(l);
    }
  }

  /** Every row of a directory's manifest is in the table as it stands after some file of that directory. */
  lemma {:induction false} ManifestRowsIn(t: seq<Row>, ms: seq<Match>, r: Row)
    requires r in ManifestRows(t, ms)
    ensures exists j :: 0 < j <= |ms| && r in Apply(t, ms[..j])
    decreases |ms|
  {
    var n := |ms| - 1;
    var init := ms[..n];
    var sel := Select(Apply(t, ms), ms[n].id);
    assert ManifestRows(t, ms) == ManifestRows(t, init) + sel;
    if r in ManifestRows(t, init) {
      ManifestRowsIn(t, init, r);
      var j :| 0 < j <= |init| && r in Apply(t, init[..j]);
      assert init[..j] == ms[..j];
    } else {
      assert r in sel;
      assert ms[..n + 1] == ms;
    }
  }


  /** Every row of every manifest a join writes comes from `AVA.txt`, with the digest and name it holds. */
  lemma {:induction false} RunDirsRowsOf(lines: seq<AvaLine>, dirs: seq<Directory>, sha256: Bytes -> HexDigest, cwd: string)
    requires RunDirs(BuildTable(lines), dirs, sha256, cwd).Ok?
    ensures var written := RunDirs(BuildTable(lines), dirs, sha256, cwd).value.manifests;
      forall i, r :: 0 <= i < |written| && r in written[i].records ==> RowOf(lines, r, r.fileHash, r.fileName)
    decreases |dirs|
  {
    if dirs != [] {
      var t0 := BuildTable(lines);
      var n := |dirs| - 1;
      var init := dirs[..n];
      RunDirsRowsOf(lines, init, sha256, cwd);
      RunDirsTable(t0, init, sha256, cwd);
      var st := RunDirs(t0, init, sha256, cwd).value;
      var prior := RunMatches(init, sha256).value;
      var ms := DirMatches(dirs[n].files, sha256).value;
      var fin := RunDirs(t0, dirs, sha256, cwd).value;
      assert fin.manifests == st.manifests + [JsonFile(ManifestPath(cwd, dirs[n].name), ManifestRows(st.rows, ms))];
      forall r | r in ManifestRows(st.rows, ms) ensures RowOf(lines, r, r.fileHash, r.fileName) {
        ManifestRowsIn(st.rows, ms, r);
        var j :| 0 < j <= |ms| && r in Apply(st.rows, ms[..j]);
        ApplyConcat(t0, prior, ms[..j]);
        ApplyRowOf(lines, prior + ms[..j], r);
      }
      forall i, r | 0 <= i < |fin.manifests| && r in fin.manifests[i].records
        ensures RowOf(lines, r, r.fileHash, r.fileName)
      {
        if i < n {
          assert fin.manifests[i] == st.manifests[i];
        }
      }
    }
  }

  /**
   * In a finished run, every row of `AVA.json` belongs to an id some image
   * file had, and is that id's `AVA.txt` row with the digest and name of the
   * last such file written in, or, when `AVA.txt` has no line with that id,
   * the enlarged row with NaN in every loaded column.
   */
  lemma AvaRunFoundRows(lines: seq<AvaLine>, tree: seq<Directory>, sha256: Bytes -> HexDigest, cwd: string)
    requires AvaRun(lines, tree, sha256, cwd).Finished?
    ensures RunMatches(SortDirectories(tree), sha256).Ok?
    ensures var ms := RunMatches(SortDirectories(tree), sha256).value;
      forall r :: r in AvaRun(lines, tree, sha256, cwd).found.records ==>
        && HasId(ms, r.key)
        && RowOf(lines, r, LastMatch(ms, r.key).hash, LastMatch(ms, r.key).name)
  {
    var dirs := SortDirectories(tree);
    var t0 := BuildTable(lines);
    RunDirsTable(t0, dirs, sha256, cwd);
    var ms := RunMatches(dirs, sha256).value;
    forall r | r in AvaRun(lines, tree, sha256, cwd).found.records
      ensures HasId(ms, r.key) && RowOf(lines, r, LastMatch(ms, r.key).hash, LastMatch(ms, r.key).name)
    {
      ApplyRowOf(lines, ms, r);
    }
  }

  /**
   * In a finished run, every id some image file had is in `AVA.json`, and
   * every row of the table with that id carries the digest and name of the
   * last such file in processing order.
   */
  lemma AvaRunFound(lines: seq<AvaLine>, tree: seq<Directory>, sha256: Bytes -> HexDigest, cwd: string, k: int)
    requires AvaRun(lines, tree, sha256, cwd).Finished?
    requires RunMatches(SortDirectories(tree), sha256).Ok? && HasId(RunMatches(SortDirectories(tree), sha256).value, k)
    ensures var ms := RunMatches(SortDirectories(tree), sha256).value;
      var m := LastMatch(ms, k);
      && Select(AvaRun(lines, tree, sha256, cwd).found.records, k) != []
      && forall r :: r in AvaRun(lines, tree, sha256, cwd).found.records && r.key == k ==>
           r.fileHash == m.hash && r.fileName == m.name
  {
    var dirs := SortDirectories(tree);
    var t0 := BuildTable(lines);
    RunDirsTable(t0, dirs, sha256, cwd);
    var ms := RunMatches(dirs, sha256).value;
    FoundAfterMatches(t0, ms, k);
    MatchedRows(t0, ms, k);
  }

  // ---------------------------------------------------------------------------
  // The script, imperatively

  /** The data frame `df`, changed in place by the join. */
  class Table {
    var rows: seq<Row>

    /** Lines 15-40: read, derive the score columns, drop the raw ones, index and sort by image id. */
    constructor (lines: seq<AvaLine>)
      ensures rows == BuildTable(lines)
    {
      rows := BuildTable(lines);
    }

    /** Lines 81-82. */
    method SetMatch(id: int, hash: HexDigest, name: string)
      modifies this
      ensures rows == Assign(old(rows), id, hash, name)
    {
      rows := Assign(rows, id, hash, name);
    }

    /** `df.loc[[id]]`. */
    function Locate(id: int): seq<Row>
      reads this
    {
      Select(rows, id)
    }
  }

  /**
   * Lines 56-85 for one directory: the manifest starts empty and gains, per
   * image file, the rows of that file's id as they are right after the file's
   * assignment; a stem `int()` rejects stops the scan.
   */
  method ScanDirectory(df: Table, files: seq<DirFile>, sha256: Bytes -> HexDigest)
    returns (result: Result<seq<Row>, string>)
    modifies df
    ensures match DirMatches(files, sha256)
      case Ok(ms) => result == Ok(ManifestRows(old(df.rows), ms)) && df.rows == Apply(old(df.rows), ms)
      case Err(bad) =>
        && result == Err(bad)
        && exists n :: 0 <= n < |files| && DirMatches(files[..n], sha256).Ok?
             && files[n].name == bad && IsImageName(bad) && JoinKey(bad).None?
             && df.rows == Apply(old(df.rows), DirMatches(files[..n], sha256).value)
  {
    var manifest: seq<Row> := [];
    ghost var ms: seq<Match> := [];
    var i := 0;
    while i < |files|
      invariant 0 <= i <= |files|
      invariant DirMatches(files[..i], sha256) == Ok(ms)
      invariant df.rows == Apply(old(df.rows), ms)
      invariant manifest == ManifestRows(old(df.rows), ms)
    {
      var file := files[i];
      DirMatchesNext(files, i, sha256);
      if !IsImageName(file.name) {
        i := i + 1;
        continue;
      }
      var hash := sha256(file.data);
      var imageId := JoinKey(file.name);
      if imageId.None? {
        DirMatchesStuck(files, i + 1, sha256);
        return Err(file.name);
      }
      ApplyNext(old(df.rows), ms, Match(imageId.value, hash, file.name));
      df.SetMatch(imageId.value, hash, file.name);
      ms := ms + [Match(imageId.value, hash, file.name)];
      manifest := manifest + df.Locate(imageId.value);
      i := i + 1;
    }
    assert files[..i] == files;
    result := Ok(manifest);
  }

  /**
   * The script from line 15 to line 100: build the table, visit the
   * directories in sorted order writing one manifest each, then split the
   * table into `AVA.json` and `error.txt`.
   */
  method GenerateAvaJson(lines: seq<AvaLine>, tree: seq<Directory>, sha256: Bytes -> HexDigest, cwd: string)
    returns (outcome: AvaOutcome)
    ensures outcome == AvaRun(lines, tree, sha256, cwd)
  {
    var df := new Table(lines);
    ghost var t0 := df.rows;
    var directories := SortDirectories(tree);
    var written: seq<JsonFile<Row>> := [];
    var d := 0;
    while d < |directories|
      invariant 0 <= d <= |directories|
      invariant RunDirs(t0, directories[..d], sha256, cwd) == Ok(JoinState(df.rows, written))
    {
      var directory := directories[d];
      RunDirsNext(t0, directories, d, sha256, cwd);
      var scan := ScanDirectory(df, directory.files, sha256);
      if scan.Err? {
        RunDirsStuck(t0, directories, d + 1, sha256, cwd);
        return Aborted(written, scan.error);
      }
      written := written + [JsonFile(ManifestPath(cwd, directory.name), scan.value)];
      d := d + 1;
    }
    assert directories[..d] == directories;
    outcome := Finished(written, JsonFile(FoundPath, Found(df.rows)), ErrorReport(df.rows));
  }

  /** Once the run fails in some directory, later directories change nothing about the failure. */
  lemma {:induction false} RunDirsStuck(t: seq<Row>, dirs: seq<Directory>, n: nat, sha256: Bytes -> HexDigest, cwd: string)
    requires n <= |dirs| && RunDirs(t, dirs[..n], sha256, cwd).Err?
    ensures RunDirs(t, dirs, sha256, cwd) == RunDirs(t, dirs[..n], sha256, cwd)
    decreases |dirs| - n
  {
    if n < |dirs| {
      assert dirs[..n + 1][..n] == dirs[..n];
      RunDirsStuck(t, dirs, n + 1, sha256, cwd);
    } else {
      assert dirs[..n] == dirs;
    }
  }
  /**
   * A run aborts at one directory: the run over the directories before it
   * finishes, and that directory's scan fails. What the abort leaves is those
   * directories' manifests and the failing scan's bad name.
   */
  lemma {:induction false} RunDirsAborted(t: seq<Row>, dirs: seq<Directory>, sha256: Bytes -> HexDigest, cwd: string)
    requires RunDirs(t, dirs, sha256, cwd).Err?
    ensures exists n ::
      && 0 <= n < |dirs| && RunDirs(t, dirs[..n], sha256, cwd).Ok?
      && DirMatches(dirs[n].files, sha256).Err?
      && RunDirs(t, dirs, sha256, cwd).error
         == (RunDirs(t, dirs[..n], sha256, cwd).value.manifests, DirMatches(dirs[n].files, sha256).error)
    decreases |dirs|
  {
    var k := |dirs| - 1;
    var init := dirs[..k];
    if RunDirs(t, init, sha256, cwd).Err? {
      RunDirsAborted(t, init, sha256, cwd);
      var n :| 0 <= n < |init| && RunDirs(t, init[..n], sha256, cwd).Ok?
        && DirMatches(init[n].files, sha256).Err?
        && RunDirs(t, init, sha256, cwd).error
           == (RunDirs(t, init[..n], sha256, cwd).value.manifests, DirMatches(init[n].files, sha256).error);
      assert init[..n] == dirs[..n] && init[n] == dirs[n];
    } else {
      assert dirs[..k] == init;
    }
  }

  /** `bad` names the first image file of `files` whose stem `int()` rejects. */
  predicate FirstBadImage(files: seq<DirFile>, sha256: Bytes -> HexDigest, bad: string) {
    exists j :: 0 <= j < |files| && DirMatches(files[..j], sha256).Ok?
      && files[j].name == bad && IsImageName(bad) && JoinKey(bad).None?
  }

  /** `written` holds one manifest for each of the first `n` directories, at its path. */
  predicate ManifestsOfFirst(written: seq<JsonFile<Row>>, dirs: seq<Directory>, n: int, cwd: string) {
    && |written| == n
    && forall i :: 0 <= i < n && i < |dirs| ==> written[i].path == ManifestPath(cwd, dirs[i].name)
  }

  /**
   * What an aborted join leaves: the manifests a join over the directories
   * before the failing one writes, one per directory at its path, and the
   * name of the failing directory's first image file whose stem `int()` rejects.
   */
  lemma {:induction false} RunDirsAbortedFiles(t: seq<Row>, dirs: seq<Directory>, sha256: Bytes -> HexDigest, cwd: string)
    requires RunDirs(t, dirs, sha256, cwd).Err?
    ensures exists n ::
      && 0 <= n < |dirs|
      && RunDirs(t, dirs[..n], sha256, cwd).Ok?
      && RunDirs(t, dirs, sha256, cwd).error.0 == RunDirs(t, dirs[..n], sha256, cwd).value.manifests
      && ManifestsOfFirst(RunDirs(t, dirs, sha256, cwd).error.0, dirs, n, cwd)
      && FirstBadImage(dirs[n].files, sha256, RunDirs(t, dirs, sha256, cwd).error.1)
  {
    RunDirsAborted(t, dirs, sha256, cwd);
    var n :| 0 <= n < |dirs| && RunDirs(t, dirs[..n], sha256, cwd).Ok?
      && DirMatches(dirs[n].files, sha256).Err?
      && RunDirs(t, dirs, sha256, cwd).error
         == (RunDirs(t, dirs[..n], sha256, cwd).value.manifests, DirMatches(dirs[n].files, sha256).error);
    var done := RunDirs(t, dirs[..n], sha256, cwd).value;
    RunDirsTable(t, dirs[..n], sha256, cwd);
    assert ManifestsOfFirst(done.manifests, dirs, n, cwd) by {
      assert forall i :: 0 <= i < n ==> dirs[..n][i] == dirs[i];
    }
    DirMatchesErr(dirs[n].files, sha256);
  }

  /**
   * An aborted run: the directories, in sorted order, up to the first whose
   * scan fails. Their manifests are exactly those a run over them alone
   * writes, at their paths, and nothing else is written. The bad name is the
   * first image file of the failing directory whose stem `int()` rejects.
   */
  lemma AvaRunAborted(lines: seq<AvaLine>, tree: seq<Directory>, sha256: Bytes -> HexDigest, cwd: string)
    requires AvaRun(lines, tree, sha256, cwd).Aborted?
    ensures var dirs := SortDirectories(tree);
      var out := AvaRun(lines, tree, sha256, cwd);
      exists n ::
        && 0 <= n < |dirs|
        && RunDirs(BuildTable(lines), dirs[..n], sha256, cwd).Ok?
        && out.manifests == RunDirs(BuildTable(lines), dirs[..n], sha256, cwd).value.manifests
        && ManifestsOfFirst(out.manifests, dirs, n, cwd)
        && FirstBadImage(dirs[n].files, sha256, out.badName)
  {
    var dirs := SortDirectories(tree);
    var t0 := BuildTable(lines);
    var e := RunDirs(t0, dirs, sha256, cwd).error;
    assert AvaRun(lines, tree, sha256, cwd) == Aborted(e.0, e.1);
    RunDirsAbortedFiles(t0, dirs, sha256, cwd);
  }



}
