/** The file-system side of util.js over an in-memory tree: a map from
    path to entry. checkFileIsExists, createDir (mkdir with recursive: true),
    readDir, copyFile (exclusive create) and copyFilesArr (one copy per
    template file, in order, each renamed to curPath + its extension). */
module Disk {
  import opened Wrappers
  import opened Paths

  datatype Entry = Dir | File(data: seq<bv8>)

  type Entries = map<string, Entry>

  /** The directory that would hold p exists (the root "" always does). */
  predicate ParentIsDir(e: Entries, p: string)
  {
    Parent(p) == "" || (Parent(p) in e && e[Parent(p)].Dir?)
  }

  /** A well-formed tree: every entry hangs below an existing directory. */
  ghost predicate Tree(e: Entries)
  {
    forall p :: p in e ==> ParentIsDir(e, p)
  }

  /** fs.mkdir(p, { recursive: true }): creates p and every missing directory
      above it; an existing directory is fine; a file in the way is an error. */
  function MkdirP(e: Entries, p: string): (r: Option<Entries>)
    ensures r.Some? ==> p == "" || (p in r.value && r.value[p].Dir?)
    ensures r.Some? ==> forall q :: q in e ==> q in r.value && r.value[q] == e[q]
    ensures r.Some? ==> forall q :: q in r.value && q !in e ==> q in Ancestors(p) && r.value[q].Dir?
    ensures r.Some? && Tree(e) ==> Tree(r.value)
    ensures r.None? ==> exists q :: q in Ancestors(p) && q in e && e[q].File?
    ensures (forall q :: q in Ancestors(p) && q in e ==> e[q].Dir?) ==> r.Some?
    decreases |p|
  {
    if p == "" then Some(e)
    else if p in e then (if e[p].Dir? then Some(e) else None)
    else
      match MkdirP(e, Parent(p))
      case None => None
      case Some(e1) => Some(e1[p := Dir])
  }

  /** fs.copyFile(src, dst, COPYFILE_EXCL): the source must be a file, the
      destination must not exist and its directory must. */
  function CopyOne(e: Entries, src: string, dst: string): (r: Option<Entries>)
    ensures r.Some? <==> src in e && e[src].File? && dst !in e && ParentIsDir(e, dst)
    ensures r.Some? ==> src in e && e[src].File?
    ensures r.Some? ==> r.value.Keys == e.Keys + {dst} && r.value[dst] == e[src]
    ensures r.Some? ==> forall q :: q in e ==> r.value[q] == e[q]
  {
    if src !in e || !e[src].File? then None
    else if dst in e then None
    else if !ParentIsDir(e, dst) then None
    else Some(e[dst := e[src]])
  }

  /** A copy keeps the tree well formed: its directory exists. */
  lemma CopyOneKeepsTree(e: Entries, src: string, dst: string)
    requires Tree(e) && CopyOne(e, src, dst).Some?
    ensures Tree(CopyOne(e, src, dst).value)
  {
    var e1 := CopyOne(e, src, dst).value;
    forall p | p in e1 ensures ParentIsDir(e1, p) {
      assert ParentIsDir(e, p);
    }
  }

  /** Where copyFilesArr reads the template file f. */
  function Src(origin: string, f: string): string
  {
    origin + "/" + f
  }

  /** For a plain file name, the source is an entry directly inside origin. */
  lemma SrcInOrigin(origin: string, f: string)
    requires '/' !in f
    ensures Parent(Src(origin, f)) == origin
  {
    ParentOfChild(origin, f);
  }

  /** Where copyFilesArr writes the copy of f: the base name is dropped and
      only the extension is kept. */
  function Dest(cur: string, f: string): string
  {
    cur + ExtName(f)
  }

  /** The copy of f is named cur followed by a suffix: without '/' when f is
      a plain name (so it sits in cur's directory), and empty when f has no
      extension (so it is cur itself). */
  lemma DestNextToCur(cur: string, f: string)
    ensures |Dest(cur, f)| >= |cur| && Dest(cur, f)[..|cur|] == cur
    ensures '/' !in f ==> '/' !in Dest(cur, f)[|cur|..]
    ensures ExtName(f) == "" ==> Dest(cur, f) == cur
  {
    var r := Dest(cur, f);
    assert r[|cur|..] == ExtName(f);
    if '/' !in f {
      ExtNameHasNoSlash(f);
    }
  }

  /** Two files get the same destination exactly when their extensions agree. */
  lemma DestSameIff(cur: string, f: string, g: string)
    ensures Dest(cur, f) == Dest(cur, g) <==> ExtName(f) == ExtName(g)
  {
    if Dest(cur, f) == Dest(cur, g) {
      assert Dest(cur, f)[|cur|..] == ExtName(f);
      assert Dest(cur, g)[|cur|..] == ExtName(g);
    }
  }

  /** The state after a batch of copies and how many of them completed. */
  datatype CopyRun = CopyRun(entries: Entries, copied: nat)

  /** copyFilesArr: copy arr[0], arr[1], ... in order; the first failing
      copy stops the batch. */
  function CopyAll(e: Entries, origin: string, cur: string, arr: seq<string>): (r: CopyRun)
    ensures r.copied <= |arr|
    decreases |arr|
  {
    if |arr| == 0 then CopyRun(e, 0)
    else
      var last := arr[|arr| - 1];
      var r := CopyAll(e, origin, cur, arr[..|arr| - 1]);
      if r.copied < |arr| - 1 then r
      else
        match CopyOne(r.entries, Src(origin, last), Dest(cur, last))
        case None => r
        case Some(e1) => CopyRun(e1, |arr|)
  }

  /** A batch never overwrites or removes an entry: a completed copy is
      never undone. */
  lemma {:induction false} CopyAllKeeps(e: Entries, origin: string, cur: string, arr: seq<string>)
    ensures forall q :: q in e ==> q in CopyAll(e, origin, cur, arr).entries && CopyAll(e, origin, cur, arr).entries[q] == e[q]
    decreases |arr|
  {
    if |arr| > 0 {
      CopyAllKeeps(e, origin, cur, arr[..|arr| - 1]);
    }
  }

  /** Every entry a batch adds is the destination of a completed copy. */
  lemma {:induction false} CopyAllAddsOnlyDestinations(e: Entries, origin: string, cur: string, arr: seq<string>, q: string)
    requires q in CopyAll(e, origin, cur, arr).entries && q !in e
    ensures exists i :: 0 <= i < CopyAll(e, origin, cur, arr).copied && q == Dest(cur, arr[i])
    decreases |arr|
  {
    var n := |arr| - 1;
    var pre := arr[..n];
    var r := CopyAll(e, origin, cur, pre);
    if q in r.entries {
      CopyAllAddsOnlyDestinations(e, origin, cur, pre, q);
      var i :| 0 <= i < r.copied && q == Dest(cur, pre[i]);
      assert pre[i] == arr[i];
    } else {
      assert q == Dest(cur, arr[n]);
    }
  }

  /** A batch keeps the tree well formed. */
  lemma {:induction false} CopyAllKeepsTree(e: Entries, origin: string, cur: string, arr: seq<string>)
    requires Tree(e)
    ensures Tree(CopyAll(e, origin, cur, arr).entries)
    decreases |arr|
  {
    if |arr| > 0 {
      var last := arr[|arr| - 1];
      var r := CopyAll(e, origin, cur, arr[..|arr| - 1]);
      CopyAllKeepsTree(e, origin, cur, arr[..|arr| - 1]);
      if r.copied == |arr| - 1 && CopyOne(r.entries, Src(origin, last), Dest(cur, last)).Some? {
        CopyOneKeepsTree(r.entries, Src(origin, last), Dest(cur, last));
      }
    }
  }

  /** The copy of f in e2 holds the bytes f had in e. */
  predicate CopiedFrom(e2: Entries, e: Entries, origin: string, cur: string, f: string)
  {
    Dest(cur, f) in e2 && Src(origin, f) in e && e2[Dest(cur, f)] == e[Src(origin, f)]
  }

  predicate DistinctExtensions(arr: seq<string>)
  {
    forall i, j :: 0 <= i < j < |arr| ==> ExtName(arr[i]) != ExtName(arr[j])
  }

  /** When every source is a file, no destination exists yet, every
      destination directory exists and the extensions are distinct, the whole
      batch is copied and each destination holds its source's bytes. */
  lemma {:induction false} CopyAllSucceeds(e: Entries, origin: string, cur: string, arr: seq<string>)
    requires forall i :: 0 <= i < |arr| ==> Src(origin, arr[i]) in e && e[Src(origin, arr[i])].File?
    requires forall i :: 0 <= i < |arr| ==> Dest(cur, arr[i]) !in e && ParentIsDir(e, Dest(cur, arr[i]))
    requires DistinctExtensions(arr)
    ensures CopyAll(e, origin, cur, arr).copied == |arr|
    ensures forall i :: 0 <= i < |arr| ==> CopiedFrom(CopyAll(e, origin, cur, arr).entries, e, origin, cur, arr[i])
    decreases |arr|
  {
    if |arr| > 0 {
      var pre := arr[..|arr| - 1];
      assert forall i :: 0 <= i < |pre| ==> pre[i] == arr[i];
      CopyAllSucceeds(e, origin, cur, pre);
      CopyLastSucceeds(e, origin, cur, arr);
    }
  }

  /** The step of CopyAllSucceeds: once every file but the last is copied,
      the last one is too. */
  lemma CopyLastSucceeds(e: Entries, origin: string, cur: string, arr: seq<string>)
    requires |arr| > 0
    requires forall i :: 0 <= i < |arr| ==> Src(origin, arr[i]) in e && e[Src(origin, arr[i])].File?
    requires forall i :: 0 <= i < |arr| ==> Dest(cur, arr[i]) !in e && ParentIsDir(e, Dest(cur, arr[i]))
    requires DistinctExtensions(arr)
    requires CopyAll(e, origin, cur, arr[..|arr| - 1]).copied == |arr| - 1
    requires forall i :: 0 <= i < |arr| - 1 ==> CopiedFrom(CopyAll(e, origin, cur, arr[..|arr| - 1]).entries, e, origin, cur, arr[i])
    ensures CopyAll(e, origin, cur, arr).copied == |arr|
    ensures forall i :: 0 <= i < |arr| ==> CopiedFrom(CopyAll(e, origin, cur, arr).entries, e, origin, cur, arr[i])
  {
    var n := |arr| - 1;
    var last := arr[n];
    var src, dst := Src(origin, last), Dest(cur, last);
    var r := CopyAll(e, origin, cur, arr[..n]);
    assert src in e && e[src].File? && dst !in e && ParentIsDir(e, dst);
    assert forall i :: 0 <= i < n ==> ExtName(arr[..n][i]) != ExtName(last);
    LastDestinationFree(e, origin, cur, arr[..n], last);
    LastCopyCompletes(e, origin, cur, arr, e[src]);
    CopiedStep(e, origin, cur, arr, r.entries);
  }

  /** The last copy of a batch whose earlier copies completed, into a free
      destination whose directory exists, completes the batch. */
  lemma LastCopyCompletes(e: Entries, origin: string, cur: string, arr: seq<string>, data: Entry)
    requires |arr| > 0 && data.File?
    requires var r := CopyAll(e, origin, cur, arr[..|arr| - 1]);
      var src, dst := Src(origin, arr[|arr| - 1]), Dest(cur, arr[|arr| - 1]);
      && r.copied == |arr| - 1
      && dst !in r.entries && ParentIsDir(r.entries, dst)
      && src in r.entries && r.entries[src] == data
    ensures var r := CopyAll(e, origin, cur, arr[..|arr| - 1]);
      CopyAll(e, origin, cur, arr) == CopyRun(r.entries[Dest(cur, arr[|arr| - 1]) := data], |arr|)
  {
  }

  /** Writing the last file's copy keeps the earlier copies: their
      destinations differ from it. */
  lemma CopiedStep(e: Entries, origin: string, cur: string, arr: seq<string>, r: Entries)
    requires |arr| > 0 && Src(origin, arr[|arr| - 1]) in e
    requires DistinctExtensions(arr)
    requires forall i :: 0 <= i < |arr| - 1 ==> CopiedFrom(r, e, origin, cur, arr[i])
    ensures var last := arr[|arr| - 1];
      forall i :: 0 <= i < |arr| ==> CopiedFrom(r[Dest(cur, last) := e[Src(origin, last)]], e, origin, cur, arr[i])
  {
    var last := arr[|arr| - 1];
    forall i | 0 <= i < |arr| - 1
      ensures Dest(cur, arr[i]) != Dest(cur, last)
    {
      DestSameIff(cur, arr[i], last);
    }
  }

  /** When the earlier files were copied, the last file's destination is
      still free, its directory still exists and its source is unchanged. */
  lemma LastDestinationFree(e: Entries, origin: string, cur: string, pre: seq<string>, f: string)
    requires Src(origin, f) in e
    requires Dest(cur, f) !in e && ParentIsDir(e, Dest(cur, f))
    requires forall i :: 0 <= i < |pre| ==> ExtName(pre[i]) != ExtName(f)
    ensures var r := CopyAll(e, origin, cur, pre);
      && Dest(cur, f) !in r.entries && ParentIsDir(r.entries, Dest(cur, f))
      && Src(origin, f) in r.entries && r.entries[Src(origin, f)] == e[Src(origin, f)]
  {
    NoEarlierDestination(e, origin, cur, pre, f);
    KeptByBatch(e, origin, cur, pre, Src(origin, f), Dest(cur, f));
  }

  /** A batch keeps an existing source and an existing directory. */
  lemma KeptByBatch(e: Entries, origin: string, cur: string, pre: seq<string>, src: string, dst: string)
    requires src in e && ParentIsDir(e, dst)
    ensures var r := CopyAll(e, origin, cur, pre);
      ParentIsDir(r.entries, dst) && src in r.entries && r.entries[src] == e[src]
  {
    CopyAllKeeps(e, origin, cur, pre);
    ParentStaysDir(e, CopyAll(e, origin, cur, pre).entries, dst);
  }

  /** An existing directory stays one in a tree that keeps every entry. */
  lemma ParentStaysDir(e: Entries, e2: Entries, p: string)
    requires ParentIsDir(e, p)
    requires forall q :: q in e ==> q in e2 && e2[q] == e[q]
    ensures ParentIsDir(e2, p)
  {
  }

  /** A file whose extension no file of a batch has: the batch never writes
      its destination. */
  lemma NoEarlierDestination(e: Entries, origin: string, cur: string, pre: seq<string>, f: string)
    requires Dest(cur, f) !in e
    requires forall i :: 0 <= i < |pre| ==> ExtName(pre[i]) != ExtName(f)
    ensures Dest(cur, f) !in CopyAll(e, origin, cur, pre).entries
  {
    var r := CopyAll(e, origin, cur, pre);
    if Dest(cur, f) in r.entries {
      CopyAllAddsOnlyDestinations(e, origin, cur, pre, Dest(cur, f));
      var i :| 0 <= i < r.copied && Dest(cur, f) == Dest(cur, pre[i]);
      DestSameIff(cur, pre[i], f);
      assert false;
    }
  }

  /** One more file: when every earlier copy completed, the batch's result
      is that of copying this file into what the earlier copies left. */
  lemma CopyAllStep(e: Entries, origin: string, cur: string, arr: seq<string>, k: nat)
    requires k < |arr| && CopyAll(e, origin, cur, arr[..k]).copied == k
    ensures var r := CopyAll(e, origin, cur, arr[..k]);
      CopyAll(e, origin, cur, arr[..k + 1])
        == match CopyOne(r.entries, Src(origin, arr[k]), Dest(cur, arr[k]))
           case None => r
           case Some(e1) => CopyRun(e1, k + 1)
  {
    assert arr[..k + 1][..k] == arr[..k];
  }

  /** Once a copy has failed, later files are never attempted. */
  lemma {:induction false} CopyAllStops(e: Entries, origin: string, cur: string, arr: seq<string>, k: nat)
    requires k <= |arr|
    requires CopyAll(e, origin, cur, arr[..k]).copied < k
    ensures CopyAll(e, origin, cur, arr) == CopyAll(e, origin, cur, arr[..k])
    decreases |arr|
  {
    if k < |arr| {
      var n := |arr| - 1;
      assert arr[..n][..k] == arr[..k];
      CopyAllStops(e, origin, cur, arr[..n], k);
      CopySkipsAfterFailure(e, origin, cur, arr);
    } else {
      assert arr[..k] == arr;
    }
  }

  /** The step of CopyAllStops: a batch whose earlier files did not all
      copy leaves the last file alone. */
  lemma CopySkipsAfterFailure(e: Entries, origin: string, cur: string, arr: seq<string>)
    requires |arr| > 0 && CopyAll(e, origin, cur, arr[..|arr| - 1]).copied < |arr| - 1
    ensures CopyAll(e, origin, cur, arr) == CopyAll(e, origin, cur, arr[..|arr| - 1])
  {
  }

  /** Two template files with the same extension: the later one's copy finds
      its destination already written, so the batch stops there with every
      earlier copy still in place. */
  lemma DuplicateExtensionStops(e: Entries, origin: string, cur: string, arr: seq<string>, i: nat, j: nat)
    requires i < j < |arr| && ExtName(arr[i]) == ExtName(arr[j])
    requires forall k :: 0 <= k < j ==> Src(origin, arr[k]) in e && e[Src(origin, arr[k])].File?
    requires forall k :: 0 <= k < j ==> Dest(cur, arr[k]) !in e && ParentIsDir(e, Dest(cur, arr[k]))
    requires DistinctExtensions(arr[..j])
    ensures CopyAll(e, origin, cur, arr).copied == j
    ensures CopyAll(e, origin, cur, arr).entries == CopyAll(e, origin, cur, arr[..j]).entries
  {
    var pre := arr[..j];
    var r := CopyAll(e, origin, cur, pre);
    assert r.copied == j && Dest(cur, arr[j]) in r.entries by {
      CopyAllSucceeds(e, origin, cur, pre);
      assert pre[i] == arr[i];
      assert CopiedFrom(r.entries, e, origin, cur, pre[i]);
      DestSameIff(cur, arr[i], arr[j]);
    }
    assert CopyAll(e, origin, cur, arr[..j + 1]) == r by {
      CopyAllStep(e, origin, cur, arr, j);
    }
    CopyAllStops(e, origin, cur, arr, j + 1);
  }

  /** The destinations copyFilesArr writes: one per template file, in order. */
  function Destinations(cur: string, arr: seq<string>): (ds: seq<string>)
    ensures |ds| == |arr|
    ensures forall i :: 0 <= i < |arr| ==> ds[i] == cur + ExtName(arr[i])
    ensures DistinctExtensions(arr) <==> Distinct(ds)
  {
    var ds := seq(|arr|, i requires 0 <= i < |arr| => Dest(cur, arr[i]));
    assert DistinctExtensions(arr) <==> Distinct(ds) by {
      forall i, j | 0 <= i < j < |arr|
        ensures ds[i] == ds[j] <==> ExtName(arr[i]) == ExtName(arr[j])
      {
        DestSameIff(cur, arr[i], arr[j]);
      }
    }
    ds
  }

  /** An extension as extname returns it for a file with a base name. */
  predicate IsExtension(x: string)
  {
    |x| >= 1 && x[0] == '.' && '.' !in x[1..]
  }

  /** A template of files stem + x (index.js, index.json, index.wxml, ...)
      copied to cur gives cur + x for each, in the same order. */
  lemma {:induction false} RenamedDestinations(cur: string, stem: string, exts: seq<string>)
    requires stem != "" && '.' !in stem
    requires forall i :: 0 <= i < |exts| ==> IsExtension(exts[i])
    ensures Destinations(cur, seq(|exts|, i requires 0 <= i < |exts| => stem + exts[i]))
         == seq(|exts|, i requires 0 <= i < |exts| => cur + exts[i])
  {
    var files := seq(|exts|, i requires 0 <= i < |exts| => stem + exts[i]);
    forall i | 0 <= i < |exts| ensures Dest(cur, files[i]) == cur + exts[i] {
      ExtNameOf(stem, exts[i]);
    }
  }

  /** p is dir + "/" + a non-empty name without '/'. */
  predicate IsChild(dir: string, p: string)
  {
    |p| > |dir| + 1 && p[..|dir| + 1] == dir + "/" && '/' !in p[|dir| + 1..]
  }

  /** The names fs.readdir lists for dir: exactly the last segments of the
      entries directly inside dir, each a non-empty name without '/'. */
  function Children(e: Entries, dir: string): (r: set<string>)
    ensures forall n :: n in r ==> n != "" && '/' !in n && Src(dir, n) in e
    ensures forall n :: n != "" && '/' !in n && Src(dir, n) in e ==> n in r
  {
    var r := set p | p in e && IsChild(dir, p) :: p[|dir| + 1..];
    assert forall n :: n in r ==> n != "" && '/' !in n && Src(dir, n) in e by {
      forall n | n in r ensures n != "" && '/' !in n && Src(dir, n) in e {
        var p :| p in e && IsChild(dir, p) && p[|dir| + 1..] == n;
        assert p == p[..|dir| + 1] + p[|dir| + 1..];
      }
    }
    assert forall n :: n != "" && '/' !in n && Src(dir, n) in e ==> n in r by {
      forall n | n != "" && '/' !in n && Src(dir, n) in e ensures n in r {
        var p := Src(dir, n);
        assert p[..|dir| + 1] == dir + "/" && p[|dir| + 1..] == n;
        assert IsChild(dir, p);
      }
    }
    r
  }

  class FileSystem {
    var entries: Entries

    constructor (initial: Entries)
      ensures entries == initial
    {
      entries := initial;
    }

    /** checkFileIsExists: fs.existsSync. */
    method CheckFileIsExists(p: string) returns (b: bool)
      ensures b <==> p in entries
    {
      b := p in entries;
    }

    /** createDir: an error in the mkdir callback is thrown (the process
        stops), reported here as ok == false with nothing changed. */
    method CreateDir(p: string) returns (ok: bool)
      modifies this
      ensures ok <==> MkdirP(old(entries), p).Some?
      ensures entries == if ok then MkdirP(old(entries), p).value else old(entries)
    {
      var r := MkdirP(entries, p);
      ok := r.Some?;
      if ok {
        entries := r.value;
      }
    }

    /** readDir: lists dir in an order the file system chooses. */
    method ReadDir(dir: string) returns (ok: bool, names: seq<string>)
      ensures ok <==> dir in entries && entries[dir].Dir?
      ensures ok ==> Distinct(names) && (set n | n in names) == Children(entries, dir)
      ensures !ok ==> names == []
    {
      names := [];
      ok := dir in entries && entries[dir].Dir?;
      if !ok {
        return;
      }
      var remaining := Children(entries, dir);
      while remaining != {}
        invariant remaining <= Children(entries, dir)
        invariant (set n | n in names) + remaining == Children(entries, dir)
        invariant forall i :: 0 <= i < |names| ==> names[i] !in remaining
        invariant Distinct(names)
        decreases remaining
      {
        var n :| n in remaining;
        names := names + [n];
        remaining := remaining - {n};
      }
    }

    /** copyFile; an error in the callback is thrown, reported here as
        ok == false with nothing changed. */
    method CopyFile(src: string, dst: string) returns (ok: bool)
      modifies this
      ensures ok <==> CopyOne(old(entries), src, dst).Some?
      ensures entries == if ok then CopyOne(old(entries), src, dst).value else old(entries)
    {
      var r := CopyOne(entries, src, dst);
      ok := r.Some?;
      if ok {
        entries := r.value;
      }
    }

    /** copyFilesArr: one awaited copy per element, in array order, to
        curPath + extname(arr[i]); returns how many copies completed (all of
        them, or up to the one that failed). */
    method CopyFilesArr(origin: string, cur: string, arr: seq<string>) returns (copied: nat)
      modifies this
      ensures CopyRun(entries, copied) == CopyAll(old(entries), origin, cur, arr)
    {
      copied := 0;
      while copied < |arr|
        invariant copied <= |arr|
        invariant CopyRun(entries, copied) == CopyAll(old(entries), origin, cur, arr[..copied])
      {
        var ok := CopyFile(Src(origin, arr[copied]), Dest(cur, arr[copied]));
        CopyAllStep(old(entries), origin, cur, arr, copied);
        if !ok {
          CopyAllStops(old(entries), origin, cur, arr, copied + 1);
          return;
        }
        copied := copied + 1;
      }
      assert arr[..copied] == arr;
    }
  }
}
