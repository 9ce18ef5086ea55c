/**
 * What the generators see of their host: file contents as bytes, SHA-256 hex
 * digests, the triples `os.walk` yields, zip archives as `zipfile` presents
 * them, and the JSON files written out. Hashing itself is a parameter of the
 * operations that need it (a function from bytes to a digest).
 */
module Host {
  import opened Wrappers
  import opened PyText
  import opened PyPath

  type Bytes = seq<bv8>

  predicate IsLowerHex(c: char) {
    '0' <= c <= '9' || 'a' <= c <= 'f'
  }

  /** `hashlib.sha256(...).hexdigest()`: 64 lower-case hexadecimal characters. */
  type HexDigest = s: string | |s| == 64 && forall i :: 0 <= i < |s| ==> IsLowerHex(s[i])
    witness seq(64, _ => '0')

  /** One step of `os.walk`: a directory and the names of the plain files directly in it. */
  datatype WalkStep = WalkStep(root: string, files: seq<string>)

  /** One `ZipInfo` of an archive's `infolist()`; `data` is `None` when reading the entry raises. */
  datatype ZipEntry = ZipEntry(filename: string, data: Option<Bytes>)

  /** What `zipfile.ZipFile(path)` finds: an archive it cannot open, or the entries in `infolist()` order. */
  datatype ZipArchive = BadZip | Zip(entries: seq<ZipEntry>)

  /** A JSON document written to `path`: the array of `records`, in order. */
  datatype JsonFile<T> = JsonFile(path: string, records: seq<T>)

  /** The names among `files` that end in `.zip`, in listing order. */
  function ZipNames(files: seq<string>): (r: seq<string>)
    ensures |r| <= |files|
    ensures forall n :: n in r <==> n in files && EndsWith(n, ".zip")
  {
    if files == [] then []
    else (if EndsWith(files[0], ".zip") then [files[0]] else []) + ZipNames(files[1..])
  }
}
