/** String and path helpers of util.js: splitting on '/', the short key of a
    path (getPathSubSting), the extension of a file name (path.extname on a
    bare name), and the parent/ancestor relation the abstract file system uses. */
module Paths {

  /** String.prototype.split('/') : "" gives [""], "a/" gives ["a", ""]. */
  function Split(s: string): (r: seq<string>)
    ensures |r| >= 1
    ensures forall i :: 0 <= i < |r| ==> '/' !in r[i]
    decreases |s|
  {
    if |s| == 0 then [""]
    else
      var rest := Split(s[1..]);
      if s[0] == '/' then [""] + rest
      else [[s[0]] + rest[0]] + rest[1..]
  }

  /** Array.prototype.join('/'), the inverse of Split. */
  function Join(parts: seq<string>): (s: string)
    requires |parts| >= 1
    decreases |parts|
  {
    if |parts| == 1 then parts[0] else parts[0] + "/" + Join(parts[1..])
  }

  /** Splitting loses nothing: joining the segments back gives the path. */
  lemma {:induction false} JoinSplit(s: string)
    ensures Join(Split(s)) == s
    decreases |s|
  {
    if |s| > 0 {
      var rest := Split(s[1..]);
      JoinSplit(s[1..]);
      if s[0] == '/' {
        assert Split(s) == [""] + rest;
        assert Split(s)[1..] == rest;
      } else {
        var r := Split(s);
        assert r == [[s[0]] + rest[0]] + rest[1..];
        if |rest| == 1 {
          assert Join(r) == [s[0]] + rest[0];
        } else {
          assert r[1..] == rest[1..];
          assert Join(rest) == rest[0] + "/" + Join(rest[1..]);
        }
        assert s == [s[0]] + s[1..];
      }
    }
  }

  /** Segments without '/' are split back into themselves. */
  lemma {:induction false} SplitJoin(parts: seq<string>)
    requires |parts| >= 1
    requires forall i :: 0 <= i < |parts| ==> '/' !in parts[i]
    ensures Split(Join(parts)) == parts
    decreases |parts|, |parts[0]|
  {
    if |parts[0]| > 0 {
      var p0 := parts[0];
      var tail := [p0[1..]] + parts[1..];
      SplitJoin(tail);
      assert Join(tail)  == if |parts| == 1 then p0[1..] else p0[1..] + "/" + Join(parts[1..]) by {
        assert tail[1..] == parts[1..];
      }
      var s := Join(parts);
      assert s[0] == p0[0];
      assert s[1..] == Join(tail);
      assert Split(s) == [[p0[0]] + tail[0]] + tail[1..];
      assert [p0[0]] + p0[1..] == p0;
      assert [p0] + parts[1..] == parts;
    } else if |parts| > 1 {
      SplitJoin(parts[1..]);
      var s := Join(parts);
      assert s == "/" + Join(parts[1..]);
      assert s[1..] == Join(parts[1..]);
      assert [""] + parts[1..] == parts;
    }
  }

  /** The short key of a list of segments: the last non-empty segment among
      indices 1 .. |segs|-1; segment 0 is never looked at. */
  function LastKey(segs: seq<string>): (r: string)
    ensures r != "" ==> exists k :: 1 <= k < |segs| && segs[k] == r
    ensures r == "" ==> forall j :: 1 <= j < |segs| ==> segs[j] == ""
  {
    if |segs| <= 1 then ""
    else if segs[|segs| - 1] != "" then segs[|segs| - 1]
    else LastKey(segs[..|segs| - 1])
  }

  /** getPathSubSting: the loop starts at arr.length, one past the last
      segment (undefined, so falsy), walks down while i > 0 and stops at the
      first non-empty segment; segment 0 is never examined. */
  method GetPathSubString(path: string) returns (result: string)
    ensures result == PathKey(path)
  {
    var arr := Split(path);
    result := "";
    var i := |arr|;
    while i > 0
      invariant 0 <= i <= |arr|
      invariant result == ""
      invariant forall j :: i < j < |arr| ==> arr[j] == ""
    {
      if i < |arr| && arr[i] != "" {
        result := arr[i];
        LastKeyAt(arr, i);
        return;
      }
      i := i - 1;
    }
  }

  /** The key of a path as used for the manifest indices. */
  function PathKey(path: string): string
  {
    LastKey(Split(path))
  }

  /** LastKey picks the right-most non-empty segment past index 0. */
  lemma {:induction false} LastKeyAt(segs: seq<string>, i: nat)
    requires 1 <= i < |segs| && segs[i] != ""
    requires forall j :: i < j < |segs| ==> segs[j] == ""
    ensures LastKey(segs) == segs[i]
    decreases |segs|
  {
    if i < |segs| - 1 {
      LastKeyAt(segs[..|segs| - 1], i);
    }
  }

  /** The key of a path never contains '/', whatever the path. */
  lemma PathKeyHasNoSlash(path: string)
    ensures '/' !in PathKey(path)
  {
    var segs := Split(path);
    var r := LastKey(segs);
    if r != "" {
      var k :| 1 <= k < |segs| && segs[k] == r;
    }
  }

  /** A path with no '/' has key "": index 0 is never examined. */
  lemma NoSlashKeyIsEmpty(path: string)
    requires '/' !in path
    ensures PathKey(path) == ""
  {
    var segs := Split(path);
    SplitJoin([path]);
    assert Join([path]) == path;
    assert segs == [path];
  }

  /** The worked example of the manifest: "pages/index/index" has key "index". */
  lemma PageKeyExample()
    ensures PathKey("pages/index/index") == "index"
  {
    var parts := ["pages", "index", "index"];
    SplitJoin(parts);
    assert parts[1..] == ["index", "index"] && parts[1..][1..] == ["index"];
    assert Join(["pages", "index", "index"]) == "pages/index/index";
    LastKeyAt(["pages", "index", "index"], 2);
  }

  /** The key of a main-bundle page "pages/n/n" is n, for any name without '/'. */
  lemma PagePathKey(name: string)
    requires name != "" && '/' !in name
    ensures PathKey("pages/" + name + "/" + name) == name
  {
    var parts := ["pages", name, name];
    SplitJoin(parts);
    assert parts[1..] == [name, name] && parts[1..][1..] == [name];
    assert Join([name, name]) == name + "/" + name;
    assert Join(parts) == "pages" + "/" + (name + "/" + name);
    assert "pages" + "/" + (name + "/" + name) == "pages/" + name + "/" + name;
    LastKeyAt(parts, 2);
  }

  /** The key of a two-segment path "a/b" with b non-empty is b. */
  lemma TwoSegmentKey(a: string, b: string)
    requires '/' !in a && '/' !in b && b != ""
    ensures PathKey(a + "/" + b) == b
  {
    SplitJoin([a, b]);
    assert Join([a, b]) == a + "/" + b;
    LastKeyAt([a, b], 1);
  }

  /** Index of the last occurrence of c in s, or -1. */
  function LastIndexOf(s: string, c: char): (r: int)
    ensures -1 <= r < |s|
    ensures r >= 0 ==> s[r] == c
    ensures forall j :: r < j < |s| ==> s[j] != c
    decreases |s|
  {
    if |s| == 0 then -1
    else if s[|s| - 1] == c then |s| - 1
    else LastIndexOf(s[..|s| - 1], c)
  }

  /** path.extname of a bare file name (readdir entries have no '/'): the
      suffix from the last '.', or "" when there is no '.', when the '.' is
      the first character (".gitignore"), or for the name "..". */
  function ExtName(f: string): (r: string)
    ensures |r| <= |f| && r == f[|f| - |r|..]
  {
    var k := LastIndexOf(f, '.');
    if k <= 0 || f == ".." then ""
    else f[k..]
  }

  /** What extname returns: "" exactly for a name without '.', a name whose
      only '.' leads it, and ".."; otherwise a '.' followed by no other '.'. */
  lemma ExtNameShape(f: string)
    ensures var r := ExtName(f);
      && (r == "" || (r[0] == '.' && '.' !in r[1..]))
      && (r == "" <==> ('.' !in f || (f[0] == '.' && '.' !in f[1..]) || f == ".."))
  {
  }

  /** LastIndexOf finds an occurrence with none after it. */
  lemma {:induction false} LastIndexOfAt(s: string, c: char, k: nat)
    requires k < |s| && s[k] == c
    requires forall j :: k < j < |s| ==> s[j] != c
    ensures LastIndexOf(s, c) == k
    decreases |s|
  {
    if k < |s| - 1 {
      LastIndexOfAt(s[..|s| - 1], c, k);
    }
  }

  /** A stem without '.' followed by an extension: extname gives back the
      extension. */
  lemma ExtNameOf(stem: string, ext: string)
    requires stem != "" && '.' !in stem
    requires |ext| >= 1 && ext[0] == '.' && '.' !in ext[1..]
    ensures ExtName(stem + ext) == ext
  {
    var g := stem + ext;
    assert g[0] == stem[0] != '.';
    assert g[|stem|] == '.';
    forall j | |stem| < j < |g| ensures g[j] != '.' {
      assert g[j] == ext[1..][j - |stem| - 1];
    }
    LastIndexOfAt(g, '.', |stem|);
    assert g[|stem|..] == ext;
  }

  /** A copied file keeps its source's extension: renaming to name + ext
      gives back ext, for any name without a '.'. */
  lemma ExtNamePreserved(name: string, f: string)
    requires name != "" && '.' !in name
    ensures ExtName(name + ExtName(f)) == ExtName(f)
  {
    ExtNameShape(f);
    if ExtName(f) == "" {
      assert name + ExtName(f) == name;
    } else {
      ExtNameOf(name, ExtName(f));
    }
  }

  /** The parent directory of a path: everything before the last '/'
      ("" when there is none). */
  function Parent(p: string): (r: string)
    ensures |r| < |p| || p == ""
  {
    var k := LastIndexOf(p, '/');
    if k < 0 then "" else p[..k]
  }

  /** The parent of dir + "/" + n, for a name n without '/', is dir. */
  lemma ParentOfChild(dir: string, n: string)
    requires '/' !in n
    ensures Parent(dir + "/" + n) == dir
  {
    var p := dir + "/" + n;
    assert p[|dir|] == '/';
    forall j | |dir| < j < |p| ensures p[j] != '/' {
      assert p[j] == n[j - |dir| - 1];
    }
    LastIndexOfAt(p, '/', |dir|);
    assert p[..|dir|] == dir;
  }

  /** A path and every directory above it, up to the root. */
  function Ancestors(p: string): (r: set<string>)
    ensures p != "" ==> p in r
    ensures forall q :: q in r ==> |q| <= |p|
    decreases |p|
  {
    if p == "" then {} else {p} + Ancestors(Parent(p))
  }

  /** The extension of a name without '/' has no '/'. */
  lemma ExtNameHasNoSlash(f: string)
    requires '/' !in f
    ensures '/' !in ExtName(f)
  {
    var x := ExtName(f);
    forall k | 0 <= k < |x| ensures x[k] != '/' {
      assert x[k] == f[|f| - |x| + k];
    }
  }

  // ---------------------------------------------------------------------
  // path.join (POSIX): the non-empty parts joined with '/', then normalised.

  /** A segment that normalisation keeps as it is. */
  predicate PlainSegment(s: string)
  {
    s != "" && s != "." && s != ".." && '/' !in s
  }

  /** The first step of path.join: the non-empty parts separated by '/'. */
  function JoinNonEmpty(parts: seq<string>): string
  {
    if |parts| == 0 then ""
    else
      var head := JoinNonEmpty(parts[..|parts| - 1]);
      var last := parts[|parts| - 1];
      if last == "" then head
      else if head == "" then last
      else head + "/" + last
  }

  /** The segments normalisation keeps, read left to right: "" and "." go,
      ".." removes the segment kept before it unless that is itself "..";
      with nothing to remove, ".." stays in a relative path and goes in an
      absolute one. */
  function NormalSegments(segs: seq<string>, aboveRoot: bool): (r: seq<string>)
    ensures forall i :: 0 <= i < |r| ==> r[i] != "" && r[i] != "."
    ensures !aboveRoot ==> forall i :: 0 <= i < |r| ==> r[i] != ".."
  {
    if |segs| == 0 then []
    else
      var kept := NormalSegments(segs[..|segs| - 1], aboveRoot);
      var s := segs[|segs| - 1];
      if s == "" || s == "." then kept
      else if s == ".." then
        if |kept| > 0 && kept[|kept| - 1] != ".." then kept[..|kept| - 1]
        else if aboveRoot then kept + [".."]
        else kept
      else kept + [s]
  }

  /** path.posix.normalize of a non-empty path: a leading '/' and a trailing
      '/' survive, the segments in between are normalised, and a path with
      nothing left is ".", "./" or "/". */
  function Normalize(path: string): (r: string)
    requires path != ""
    ensures r != ""
    ensures path[0] == '/' <==> r[0] == '/'
  {
    var absolute := path[0] == '/';
    var trailing := path[|path| - 1] == '/';
    var segs := NormalSegments(Split(path), !absolute);
    var body := if |segs| == 0 then "" else Join(segs);
    assert body != "" ==> body[0] != '/' by {
      if body != "" {
        JoinStartsWith(segs);
        assert segs[0] != "";
        SplitSegmentsNoSlash(path, segs, !absolute);
      }
    }
    if body == "" then (if absolute then "/" else if trailing then "./" else ".")
    else (if absolute then "/" else "") + body + (if trailing then "/" else "")
  }

  /** path.join: "." when every part is empty, otherwise the normalised
      joined parts; never empty, and absolute exactly when the first
      non-empty part is. */
  function JoinPath(parts: seq<string>): (r: string)
    ensures r != ""
    ensures JoinNonEmpty(parts) != "" ==> (r[0] == '/' <==> JoinNonEmpty(parts)[0] == '/')
  {
    var joined := JoinNonEmpty(parts);
    if joined == "" then "." else Normalize(joined)
  }

  /** Join(segs) starts with segs[0]. */
  lemma JoinStartsWith(segs: seq<string>)
    requires |segs| >= 1
    ensures |Join(segs)| >= |segs[0]| && Join(segs)[..|segs[0]|] == segs[0]
  {
    if |segs| > 1 {
      assert Join(segs) == segs[0] + ("/" + Join(segs[1..]));
    }
  }

  /** Join(segs) ends with the last segment. */
  lemma {:induction false} JoinEndsWith(segs: seq<string>)
    requires |segs| >= 1
    ensures |Join(segs)| >= |segs[|segs| - 1]|
    ensures Join(segs)[|Join(segs)| - |segs[|segs| - 1]|..] == segs[|segs| - 1]
    decreases |segs|
  {
    if |segs| > 1 {
      JoinEndsWith(segs[1..]);
      var t := Join(segs[1..]);
      assert Join(segs) == (segs[0] + "/") + t;
    }
  }

  /** One part more at the end of path.join's first step. */
  lemma JoinNonEmptySnoc(parts: seq<string>, last: string)
    ensures JoinNonEmpty(parts + [last]) ==
      if last == "" then JoinNonEmpty(parts)
      else if JoinNonEmpty(parts) == "" then last
      else JoinNonEmpty(parts) + "/" + last
  {
    assert (parts + [last])[..|parts|] == parts;
  }

  /** Join on three and four segments, written out. */
  lemma JoinThree(a: string, b: string, c: string)
    ensures Join([a, b, c]) == a + "/" + b + "/" + c
  {
    assert [a, b, c][1..] == [b, c] && [b, c][1..] == [c];
    assert Join([b, c]) == b + "/" + c;
    assert a + "/" + (b + "/" + c) == a + "/" + b + "/" + c;
  }

  lemma JoinFour(a: string, b: string, c: string, d: string)
    ensures Join([a, b, c, d]) == a + "/" + b + "/" + c + "/" + d
  {
    assert [a, b, c, d][1..] == [b, c, d];
    JoinThree(b, c, d);
  }

  lemma JoinFive(a: string, b: string, c: string, d: string, f: string)
    ensures Join([a, b, c, d, f]) == a + "/" + b + "/" + c + "/" + d + "/" + f
  {
    assert [a, b, c, d, f][1..] == [b, c, d, f];
    JoinFour(b, c, d, f);
  }

  lemma JoinSix(a: string, b: string, c: string, d: string, f: string, g: string)
    ensures Join([a, b, c, d, f, g]) == a + "/" + b + "/" + c + "/" + d + "/" + f + "/" + g
  {
    assert [a, b, c, d, f, g][1..] == [b, c, d, f, g];
    JoinFive(b, c, d, f, g);
  }

  /** The segments normalisation keeps come from the split path, so none has
      a '/'. */
  lemma {:induction false} NormalSegmentsNoSlash(segs: seq<string>, aboveRoot: bool)
    requires forall i :: 0 <= i < |segs| ==> '/' !in segs[i]
    ensures forall i :: 0 <= i < |NormalSegments(segs, aboveRoot)| ==> '/' !in NormalSegments(segs, aboveRoot)[i]
    decreases |segs|
  {
    if |segs| > 0 {
      NormalSegmentsNoSlash(segs[..|segs| - 1], aboveRoot);
    }
  }

  lemma SplitSegmentsNoSlash(path: string, segs: seq<string>, aboveRoot: bool)
    requires segs == NormalSegments(Split(path), aboveRoot) && |segs| >= 1
    ensures '/' !in segs[0]
  {
    NormalSegmentsNoSlash(Split(path), aboveRoot);
  }

  /** The segments of segs that are not empty, in order. */
  function NonEmpty(segs: seq<string>): seq<string>
  {
    if |segs| == 0 then []
    else if segs[|segs| - 1] == "" then NonEmpty(segs[..|segs| - 1])
    else NonEmpty(segs[..|segs| - 1]) + [segs[|segs| - 1]]
  }

  /** One segment more at the end of NonEmpty. */
  lemma NonEmptySnoc(segs: seq<string>, last: string)
    ensures NonEmpty(segs + [last]) == if last == "" then NonEmpty(segs) else NonEmpty(segs) + [last]
  {
    assert (segs + [last])[..|segs|] == segs;
  }

  /** A part written with a leading '/' is an empty segment followed by the
      part: x + "/" + ("/" + p) is x + "/" + "" + "/" + p. */
  lemma LeadingSlash(x: string, p: string, y: string)
    ensures x + "/" + ("/" + p) + y == x + "/" + "" + "/" + p + y
  {
  }

  /** Removing the empty segments between two runs of non-empty ones. */
  lemma NonEmptyGap(a: seq<string>, e: seq<string>, b: seq<string>)
    requires forall i :: 0 <= i < |a| ==> a[i] != ""
    requires forall i :: 0 <= i < |e| ==> e[i] == ""
    requires forall i :: 0 <= i < |b| ==> b[i] != ""
    ensures NonEmpty(a + e + b) == a + b
  {
    NonEmptyConcat(a + e, b);
    NonEmptyConcat(a, e);
    NonEmptyAll(a);
    NonEmptyNone(e);
    NonEmptyAll(b);
    assert NonEmpty(a + e) == a;
  }

  /** NonEmpty of a concatenation. */
  lemma {:induction false} NonEmptyConcat(s: seq<string>, t: seq<string>)
    ensures NonEmpty(s + t) == NonEmpty(s) + NonEmpty(t)
    decreases |t|
  {
    if |t| > 0 {
      var n := |t| - 1;
      NonEmptyConcat(s, t[..n]);
      assert t == t[..n] + [t[n]];
      assert s + t == (s + t[..n]) + [t[n]];
      NonEmptySnoc(s + t[..n], t[n]);
      NonEmptySnoc(t[..n], t[n]);
    } else {
      assert s + t == s;
    }
  }

  /** NonEmpty keeps a list of non-empty segments as it is. */
  lemma {:induction false} NonEmptyAll(s: seq<string>)
    requires forall i :: 0 <= i < |s| ==> s[i] != ""
    ensures NonEmpty(s) == s
    decreases |s|
  {
    if |s| > 0 {
      NonEmptyAll(s[..|s| - 1]);
    }
  }

  /** NonEmpty of a list of empty segments is empty. */
  lemma {:induction false} NonEmptyNone(s: seq<string>)
    requires forall i :: 0 <= i < |s| ==> s[i] == ""
    ensures NonEmpty(s) == []
    decreases |s|
  {
    if |s| > 0 {
      NonEmptyNone(s[..|s| - 1]);
    }
  }

  /** path.join's first step on four parts, the first, third and fourth of
      them non-empty. */
  lemma JoinNonEmptyFour(a: string, b: string, c: string, d: string)
    requires a != "" && c != "" && d != ""
    ensures JoinNonEmpty([a, b, c, d]) ==
      if b == "" then a + "/" + c + "/" + d else a + "/" + b + "/" + c + "/" + d
  {
    assert JoinNonEmpty([a]) == a by {
      JoinNonEmptySnoc([], a);
      assert [] + [a] == [a];
    }
    assert JoinNonEmpty([a, b]) == if b == "" then a else a + "/" + b by {
      JoinNonEmptySnoc([a], b);
      assert [a] + [b] == [a, b];
    }
    assert JoinNonEmpty([a, b, c]) == JoinNonEmpty([a, b]) + "/" + c by {
      JoinNonEmptySnoc([a, b], c);
      assert [a, b] + [c] == [a, b, c];
    }
    JoinNonEmptySnoc([a, b, c], d);
    assert [a, b, c] + [d] == [a, b, c, d];
  }

  /** path.join's first step on two non-empty parts. */
  lemma JoinNonEmptyTwo(a: string, b: string)
    requires a != "" && b != ""
    ensures JoinNonEmpty([a, b]) == a + "/" + b
  {
    JoinNonEmptySnoc([], a);
    assert [] + [a] == [a];
    JoinNonEmptySnoc([a], b);
    assert [a] + [b] == [a, b];
  }

  /** With only empty and plain segments, normalising drops the empty ones
      and keeps the rest. */
  lemma {:induction false} NormalPlain(segs: seq<string>, aboveRoot: bool)
    requires forall i :: 0 <= i < |segs| ==> segs[i] == "" || PlainSegment(segs[i])
    ensures NormalSegments(segs, aboveRoot) == NonEmpty(segs)
    decreases |segs|
  {
    if |segs| > 0 {
      NormalPlain(segs[..|segs| - 1], aboveRoot);
    }
  }

  /** When the joined parts are plain segments separated by one or more '/',
      path.join gives the plain segments separated by exactly one '/'. */
  lemma JoinPathPlain(parts: seq<string>, segs: seq<string>)
    requires |segs| >= 1 && JoinNonEmpty(parts) == Join(segs)
    requires PlainSegment(segs[0]) && PlainSegment(segs[|segs| - 1])
    requires forall i :: 0 <= i < |segs| ==> segs[i] == "" || PlainSegment(segs[i])
    ensures JoinPath(parts) == Join(NonEmpty(segs))
  {
    PlainEnds(segs);
    NormalizePlain(segs);
  }

  /** A join of segments that start and end with plain ones neither starts
      nor ends with '/'. */
  lemma PlainEnds(segs: seq<string>)
    requires |segs| >= 1
    requires PlainSegment(segs[0]) && PlainSegment(segs[|segs| - 1])
    ensures var joined := Join(segs);
      joined != "" && joined[0] != '/' && joined[|joined| - 1] != '/'
  {
    var joined := Join(segs);
    JoinStartsWith(segs);
    JoinEndsWith(segs);
    assert joined[0] == segs[0][0];
    assert joined[|joined| - 1] == segs[|segs| - 1][|segs[|segs| - 1]| - 1];
  }

  /** Normalising a relative join of plain and empty segments, neither
      starting nor ending with '/', just drops the empty ones. */
  lemma NormalizePlain(segs: seq<string>)
    requires |segs| >= 1 && PlainSegment(segs[0])
    requires forall i :: 0 <= i < |segs| ==> segs[i] == "" || PlainSegment(segs[i])
    requires Join(segs) != "" && Join(segs)[0] != '/' && Join(segs)[|Join(segs)| - 1] != '/'
    ensures |NonEmpty(segs)| >= 1 && Normalize(Join(segs)) == Join(NonEmpty(segs))
  {
    SplitJoin(segs);
    NormalPlain(segs, true);
    NonEmptyKeepsFirst(segs);
    NormalizeRelative(Join(segs));
  }

  /** A relative path that does not end with '/' and keeps a segment
      normalises to the join of the kept segments. */
  lemma NormalizeRelative(path: string)
    requires path != "" && path[0] != '/' && path[|path| - 1] != '/'
    requires |NormalSegments(Split(path), true)| >= 1
    ensures Normalize(path) == Join(NormalSegments(Split(path), true))
  {
    var segs := NormalSegments(Split(path), true);
    JoinStartsWith(segs);
    assert "" + Join(segs) + "" == Join(segs);
  }

  lemma {:induction false} NonEmptyKeepsFirst(segs: seq<string>)
    requires |segs| >= 1 && segs[0] != ""
    ensures |NonEmpty(segs)| >= 1 && NonEmpty(segs)[0] == segs[0]
    decreases |segs|
  {
    if |segs| > 1 {
      NonEmptyKeepsFirst(segs[..|segs| - 1]);
    }
  }
}
