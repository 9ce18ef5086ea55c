/**
 * The POSIX `os.path` operations the generators use to name their inputs and
 * outputs: `basename`, `dirname`, `join` and `splitext`, with `/` as separator.
 */
module PyPath {

  /** `s.rfind(c)`: the index of the last `c` in `s`, or -1. */
  function Rfind(s: string, c: char): (r: int)
    ensures -1 <= r < |s|
    ensures r >= 0 ==> s[r] == c
  {
    if s == [] then -1
    else if s[|s| - 1] == c then |s| - 1
    else Rfind(s[..|s| - 1], c)
  }

  /** No `c` comes after the one `Rfind` reports. */
  lemma {:induction false} RfindIsLast(s: string, c: char)
    ensures forall i :: Rfind(s, c) < i < |s| ==> s[i] != c
    decreases |s|
  {
    if s != [] && s[|s| - 1] != c {
      var init := s[..|s| - 1];
      RfindIsLast(init, c);
      assert forall i :: 0 <= i < |init| ==> init[i] == s[i];
    }
  }

  /** `os.path.basename(p)`: the text after the last `/`. */
  function Basename(p: string): string {
    p[Rfind(p, '/') + 1..]
  }

  /** The basename is the part of the path after its last `/`: a suffix, preceded by `/` unless it is all of the path. */
  lemma BasenameShape(p: string)
    ensures var r := Basename(p);
      && |r| <= |p| && p[|p| - |r|..] == r
      && '/' !in r
      && (|r| == |p| || p[|p| - |r| - 1] == '/')
  {
    RfindIsLast(p, '/');
  }

  predicate AllSlashes(s: string) {
    forall i :: 0 <= i < |s| ==> s[i] == '/'
  }

  /** `s.rstrip('/')`. */
  function StripTrailingSlashes(s: string): (r: string)
    ensures |r| <= |s| && r == s[..|r|]
    ensures r == [] || r[|r| - 1] != '/'
    ensures AllSlashes(s[|r|..])
  {
    if s != [] && s[|s| - 1] == '/' then StripTrailingSlashes(s[..|s| - 1]) else s
  }

  /**
   * `os.path.dirname(p)`: everything up to the last `/`, with the trailing slashes
   * removed unless that part is made of slashes only.
   */
  function Dirname(p: string): string {
    var head := p[..Rfind(p, '/') + 1];
    if head != [] && !AllSlashes(head) then StripTrailingSlashes(head) else head
  }

  /** `os.path.join(a, b)`: an absolute `b` replaces `a`; otherwise one `/` between them unless `a` is empty or ends in `/`. */
  function Join(a: string, b: string): string {
    if |b| > 0 && b[0] == '/' then b
    else if a == [] || a[|a| - 1] == '/' then a + b
    else a + "/" + b
  }

  /** `os.path.join(a, b, c, ...)`, folding `Join` from the left. */
  function JoinAll(parts: seq<string>): string
    decreases |parts|
  {
    if parts == [] then ""
    else if |parts| == 1 then parts[0]
    else Join(JoinAll(parts[..|parts| - 1]), parts[|parts| - 1])
  }

  /** True when `p[lo..hi]` holds a character other than `.`. */
  predicate HasNonDot(p: string, lo: int, hi: int)
    requires 0 <= lo <= hi <= |p|
  {
    exists i :: lo <= i < hi && p[i] != '.'
  }

  /**
   * `os.path.splitext(p)`: the extension is the text from the last `.` of the
   * last path component, provided that component has something other than dots
   * before it; otherwise there is no extension.
   */
  function SplitExt(p: string): (r: (string, string))
    ensures r.0 + r.1 == p
  {
    var sep := Rfind(p, '/');
    var dot := Rfind(p, '.');
    if dot > sep && HasNonDot(p, sep + 1, dot) then (p[..dot], p[dot..]) else (p, "")
  }

  /** What `SplitExt` promises: the extension is empty or one `.` followed by neither `.` nor `/`. */
  lemma {:induction false} SplitExtShape(p: string)
    ensures var (root, ext) := SplitExt(p);
      ext == [] || (ext[0] == '.' && '.' !in ext[1..] && '/' !in ext && root != [] && root[|root| - 1] != '/')
  {
    var sep := Rfind(p, '/');
    var dot := Rfind(p, '.');
    RfindIsLast(p, '/');
    RfindIsLast(p, '.');
    if dot > sep && HasNonDot(p, sep + 1, dot) {
      var ext := p[dot..];
      assert forall i :: 0 <= i < |ext| ==> ext[i] == p[dot + i];
      var i :| sep + 1 <= i < dot && p[i] != '.';
      assert p[dot - 1] != '/';
    }
  }

  /** The stem of `<stem>.zip` is `<stem>` whenever the stem has a non-dot character and no `/`. */
  lemma {:induction false} SplitExtOfSuffixed(stem: string, ext: string)
    requires '/' !in stem && '/' !in ext && '.' !in ext
    requires exists i :: 0 <= i < |stem| && stem[i] != '.'
    ensures SplitExt(stem + "." + ext) == (stem, "." + ext)
  {
    var p := stem + "." + ext;
    var sep := Rfind(p, '/');
    var dot := Rfind(p, '.');
    RfindIsLast(p, '/');
    RfindIsLast(p, '.');
    assert p[|stem|] == '.';
    assert forall i :: |stem| < i < |p| ==> p[i] == ext[i - |stem| - 1];
    assert dot == |stem|;
    assert forall i :: 0 <= i < |stem| ==> p[i] == stem[i];
    assert sep == -1;
    var i :| 0 <= i < |stem| && stem[i] != '.';
    assert HasNonDot(p, sep + 1, dot) by { assert p[i] != '.'; }
    assert p[..dot] == stem;
    assert p[dot..] == "." + ext;
    assert dot > sep;
  }

  /** After a prefix that is empty or ends in `c`, the last `c` is found in the suffix when it has one. */
  lemma {:induction false} RfindAfterSep(pre: string, b: string, c: char)
    requires pre == [] || pre[|pre| - 1] == c
    ensures Rfind(pre + b, c) == if Rfind(b, c) >= 0 then |pre| + Rfind(b, c) else |pre| - 1
    decreases |b|
  {
    if b == [] {
      assert pre + b == pre;
    } else {
      var init := b[..|b| - 1];
      assert (pre + b)[..|pre + b| - 1] == pre + init;
      RfindAfterSep(pre, init, c);
    }
  }

  /** A path without `/` is its own basename. */
  lemma BasenameWithoutSlash(p: string)
    requires '/' !in p
    ensures Basename(p) == p
  {
    assert Rfind(p, '/') == -1;
  }

  /** A prefix that is empty or ends in `/` does not change the basename. */
  lemma {:induction false} BasenameAfterSep(pre: string, b: string)
    requires pre == [] || pre[|pre| - 1] == '/'
    ensures Basename(pre + b) == Basename(b)
  {
    RfindAfterSep(pre, b, '/');
    var k := Rfind(b, '/');
    var p := pre + b;
    assert p[|pre| + k + 1..] == b[k + 1..];
  }

  /** `basename(join(a, b)) == basename(b)`: joining never changes the last component. */
  lemma {:induction false} BasenameOfJoin(a: string, b: string)
    ensures Basename(Join(a, b)) == Basename(b)
  {
    if |b| > 0 && b[0] == '/' {
    } else if a == [] || a[|a| - 1] == '/' {
      BasenameAfterSep(a, b);
    } else {
      assert Join(a, b) == (a + "/") + b;
      BasenameAfterSep(a + "/", b);
    }
  }

  /** The directory of `<dir>/<name>` is `<dir>`, for a directory that does not end in `/`. */
  lemma {:induction false} DirnameOfJoin(dir: string, name: string)
    requires dir != [] && dir[|dir| - 1] != '/'
    requires '/' !in name
    ensures Dirname(Join(dir, name)) == dir
  {
    var p := Join(dir, name);
    assert p == dir + "/" + name;
    assert p[|dir|] == '/';
    assert forall i :: |dir| < i < |p| ==> p[i] == name[i - |dir| - 1];
    RfindIsLast(p, '/');
    assert Rfind(p, '/') == |dir|;
    var head := p[..|dir| + 1];
    assert head[|head| - 1] == '/' && head[..|dir|] == dir;
    assert !AllSlashes(head) by { assert head[|dir| - 1] == dir[|dir| - 1]; }
    var r := StripTrailingSlashes(head);
    assert r == dir;
  }
}
