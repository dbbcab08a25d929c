/** The manifest store of lib/create-program-fs.js: the parsed app.json, the
    module index (module key to sub-package root) and the page index (page key
    to owning root, "" for the main bundle), held by one object, filled by
    parseAppJson and extended by writePageAppJson. */
module Manifest {
  import opened Wrappers
  import opened Paths

  datatype SubPackage = SubPackage(root: string, pages: seq<string>)

  /** The part of app.json the scaffolder reads and writes. */
  datatype AppJson = AppJson(pages: seq<string>, subPackages: seq<SubPackage>)

  /** A plain object with string keys: its keys in insertion order (the order
      Object.keys and Object.values report for non-numeric keys) and the
      value under each. */
  datatype JsObject = JsObject(keys: seq<string>, vals: map<string, string>)

  ghost predicate WellFormed(o: JsObject)
  {
    Distinct(o.keys) && forall k :: k in o.vals <==> k in o.keys
  }

  const Empty := JsObject([], map[])

  /** o[k] = v: a new key goes last, an existing key keeps its place. */
  function Put(o: JsObject, k: string, v: string): (r: JsObject)
    ensures WellFormed(o) ==> WellFormed(r)
    ensures k in r.vals && r.vals[k] == v
    ensures forall q :: q != k ==> (q in r.vals <==> q in o.vals) && (q in o.vals ==> r.vals[q] == o.vals[q])
    ensures |r.keys| >= |o.keys| && r.keys[..|o.keys|] == o.keys
    ensures WellFormed(o) ==> |r.keys| == |o.keys| + (if k in o.vals then 0 else 1)
    ensures WellFormed(o) && k !in o.vals ==> r.keys[|o.keys|] == k
  {
    JsObject(if k in o.vals then o.keys else o.keys + [k], o.vals[k := v])
  }

  /** Object.values(o). */
  function Values(o: JsObject): (vs: seq<string>)
    requires WellFormed(o)
    ensures |vs| == |o.keys|
    ensures forall i :: 0 <= i < |o.keys| ==> vs[i] == o.vals[o.keys[i]]
  {
    seq(|o.keys|, i requires 0 <= i < |o.keys| => o.vals[o.keys[i]])
  }

  /** Array.prototype.indexOf: the first position of x, or -1. */
  function IndexOf(s: seq<string>, x: string): (r: int)
    ensures -1 <= r < |s|
    ensures r == -1 <==> x !in s
    ensures r >= 0 ==> s[r] == x && x !in s[..r]
  {
    if |s| == 0 then -1
    else if s[0] == x then 0
    else
      var r := IndexOf(s[1..], x);
      assert r >= 0 ==> s[..r + 1] == [s[0]] + s[1..][..r];
      if r == -1 then -1 else r + 1
  }

  /** A run of assignments o[k1] = v1; o[k2] = v2; ... in order. */
  function AssignAll(o: JsObject, assigns: seq<(string, string)>): (r: JsObject)
    ensures WellFormed(o) ==> WellFormed(r)
    decreases |assigns|
  {
    if |assigns| == 0 then o
    else
      var last := assigns[|assigns| - 1];
      Put(AssignAll(o, assigns[..|assigns| - 1]), last.0, last.1)
  }

  /** The assignments parseAppJson makes for a list of pages of one owner. */
  function OwnedEntries(pages: seq<string>, owner: string): seq<(string, string)>
  {
    seq(|pages|, i requires 0 <= i < |pages| => (PathKey(pages[i]), owner))
  }

  lemma OwnedEntriesStep(pages: seq<string>, owner: string, i: nat)
    requires i < |pages|
    ensures OwnedEntries(pages[..i + 1], owner) == OwnedEntries(pages[..i], owner) + [(PathKey(pages[i]), owner)]
  {
  }

  /** The module index assignments: key of each root to the root. */
  function ModuleEntries(subs: seq<SubPackage>): seq<(string, string)>
  {
    seq(|subs|, i requires 0 <= i < |subs| => (PathKey(subs[i].root), subs[i].root))
  }

  /** The page index assignments of the sub-packages, package by package. */
  function SubPageEntries(subs: seq<SubPackage>): seq<(string, string)>
    decreases |subs|
  {
    if |subs| == 0 then []
    else
      var last := subs[|subs| - 1];
      SubPageEntries(subs[..|subs| - 1]) + OwnedEntries(last.pages, last.root)
  }

  /** All page index assignments: main bundle first, then sub-packages. */
  function PageEntries(m: AppJson): seq<(string, string)>
  {
    OwnedEntries(m.pages, "") + SubPageEntries(m.subPackages)
  }

  /** The manifest entry of a page named name; parseAppJson indexes it
      under the name itself. */
  function PagePath(name: string): (r: string)
    ensures name != "" && '/' !in name ==> PathKey(r) == name
  {
    var r := "pages/" + name + "/" + name;
    assert name != "" && '/' !in name ==> PathKey(r) == name by {
      if name != "" && '/' !in name {
        PagePathKey(name);
      }
    }
    r
  }

  /** m2 is m with pages/name/name added to the sub-package at idx only. */
  ghost predicate AppendedTo(m: AppJson, m2: AppJson, idx: nat, name: string)
    requires idx < |m.subPackages|
  {
    && m2.pages == m.pages
    && |m2.subPackages| == |m.subPackages|
    && m2.subPackages[idx].root == m.subPackages[idx].root
    && m2.subPackages[idx].pages == m.subPackages[idx].pages + [PagePath(name)]
    && forall j :: 0 <= j < |m.subPackages| && j != idx ==> m2.subPackages[j] == m.subPackages[j]
  }

  datatype AppendResult =
    | Appended(manifest: AppJson)
    | ModuleMissing   // the module path is not among the index's values
    | NoSuchIndex     // the position found has no sub-package (a TypeError)

  /** writePageAppJson's change to the manifest: the page goes to the main
      bundle when modulePath is "", otherwise to the sub-package at the first
      position where Object.values of the module index holds modulePath. */
  function AppendPage(m: AppJson, values: seq<string>, name: string, modulePath: string): (r: AppendResult)
    ensures modulePath == "" ==>
      && r.Appended?
      && |r.manifest.pages| == |m.pages| + 1
      && r.manifest.pages[..|m.pages|] == m.pages
      && r.manifest.pages[|m.pages|] == PagePath(name)
      && r.manifest.subPackages == m.subPackages
    ensures modulePath != "" ==> (r.ModuleMissing? <==> modulePath !in values)
    ensures r.NoSuchIndex? <==> modulePath != "" && modulePath in values && IndexOf(values, modulePath) >= |m.subPackages|
    ensures modulePath != "" && r.Appended? ==>
      0 <= IndexOf(values, modulePath) < |m.subPackages| && AppendedTo(m, r.manifest, IndexOf(values, modulePath), name)
  {
    if modulePath == "" then
      Appended(m.(pages := m.pages + [PagePath(name)]))
    else
      var idx := IndexOf(values, modulePath);
      if idx == -1 then ModuleMissing
      else if idx >= |m.subPackages| then NoSuchIndex
      else
        var sub := m.subPackages[idx];
        Appended(m.(subPackages := m.subPackages[idx := sub.(pages := sub.pages + [PagePath(name)])]))
  }

  /** How the promise returned by writePageAppJson ends. */
  datatype Settlement = Resolved | Rejected | Pending

  /** The process-wide __Data__ record. */
  class AppData {
    var appJson: AppJson
    var appModuleList: JsObject
    var appPagesList: JsObject
    /** The manifest last written to app.json by this run, if any. */
    var persisted: Option<AppJson>

    ghost predicate Valid()
      reads this
    {
      WellFormed(appModuleList) && WellFormed(appPagesList)
    }

    /** The initial record. The source starts appJson as the empty string;
        nothing reads it before parseAppJson replaces it, so an empty
        manifest stands in for it here. */
    constructor ()
      ensures Valid()
      ensures appJson == AppJson([], []) && appModuleList == Empty && appPagesList == Empty
      ensures persisted == None
    {
      appJson := AppJson([], []);
      appModuleList := Empty;
      appPagesList := Empty;
      persisted := None;
    }

    /** parseAppJson: loaded is the result of require(app.json), None when it
        is missing or unreadable (the process then exits, nothing changes).
        Main-bundle pages are indexed first, then each sub-package's root and
        pages in order; a later key overwrites an earlier one. */
    method ParseAppJson(loaded: Option<AppJson>) returns (ok: bool)
      requires Valid()
      modifies this
      ensures Valid()
      ensures ok <==> loaded.Some?
      ensures !ok ==> appJson == old(appJson) && appModuleList == old(appModuleList) && appPagesList == old(appPagesList)
      ensures ok ==> appJson == loaded.value
      ensures ok ==> appModuleList == AssignAll(old(appModuleList), ModuleEntries(loaded.value.subPackages))
      ensures ok ==> appPagesList == AssignAll(old(appPagesList), PageEntries(loaded.value))
      ensures persisted == old(persisted)
    {
      if loaded.None? {
        return false;
      }
      ok := true;
      appJson := loaded.value;
      IndexManifest(loaded.value);
    }

    /** The two forEach passes of parseAppJson: main-bundle pages, then each
        sub-package. */
    method IndexManifest(m: AppJson)
      requires Valid()
      modifies this`appModuleList, this`appPagesList
      ensures Valid()
      ensures appModuleList == AssignAll(old(appModuleList), ModuleEntries(m.subPackages))
      ensures appPagesList == AssignAll(old(appPagesList), PageEntries(m))
    {
      IndexPages(m.pages, "");
      ghost var mainIndexed := appPagesList;
      IndexSubPackages(m.subPackages);
      assert appPagesList == AssignAll(old(appPagesList), PageEntries(m)) by {
        assert appPagesList == AssignAll(mainIndexed, SubPageEntries(m.subPackages));
        assert mainIndexed == AssignAll(old(appPagesList), OwnedEntries(m.pages, ""));
        AssignAllConcat(old(appPagesList), OwnedEntries(m.pages, ""), SubPageEntries(m.subPackages));
      }
    }

    /** The forEach over the sub-packages, in manifest order. */
    method IndexSubPackages(subs: seq<SubPackage>)
      requires Valid()
      modifies this`appModuleList, this`appPagesList
      ensures Valid()
      ensures appModuleList == AssignAll(old(appModuleList), ModuleEntries(subs))
      ensures appPagesList == AssignAll(old(appPagesList), SubPageEntries(subs))
    {
      for j := 0 to |subs|
        invariant Valid()
        invariant appModuleList == AssignAll(old(appModuleList), ModuleEntries(subs[..j]))
        invariant appPagesList == AssignAll(old(appPagesList), SubPageEntries(subs[..j]))
      {
        IndexSubPackage(subs[j]);
        ParseStep(old(appModuleList), old(appPagesList), subs, j);
      }
      assert subs[..|subs|] == subs;
    }

    /** The forEach over one list of pages: each page's key gets owner. */
    method IndexPages(pages: seq<string>, owner: string)
      requires Valid()
      modifies this`appPagesList
      ensures Valid()
      ensures appPagesList == AssignAll(old(appPagesList), OwnedEntries(pages, owner))
    {
      for i := 0 to |pages|
        invariant Valid()
        invariant appPagesList == AssignAll(old(appPagesList), OwnedEntries(pages[..i], owner))
      {
        var key := GetPathSubString(pages[i]);
        OwnedEntriesStep(pages, owner, i);
        appPagesList := Put(appPagesList, key, owner);
      }
      assert pages[..|pages|] == pages;
    }

    /** The forEach callback for one sub-package: its root goes into the
        module index, then its pages into the page index. */
    method IndexSubPackage(item: SubPackage)
      requires Valid()
      modifies this`appModuleList, this`appPagesList
      ensures Valid()
      ensures appModuleList == Put(old(appModuleList), PathKey(item.root), item.root)
      ensures appPagesList == AssignAll(old(appPagesList), OwnedEntries(item.pages, item.root))
    {
      var rootKey := GetPathSubString(item.root);
      appModuleList := Put(appModuleList, rootKey, item.root);
      IndexPages(item.pages, item.root);
    }

    /** writePageAppJson: appends pages/name/name to the main bundle or to the
        sub-package found by position, then writes app.json (writeOk is how
        that write ends). A module path absent from the index leaves
        everything as it was and the promise never settles. */
    method WritePageAppJson(name: string, modulePath: string, writeOk: bool) returns (s: Settlement)
      requires Valid()
      modifies this
      ensures Valid()
      ensures appModuleList == old(appModuleList) && appPagesList == old(appPagesList)
      ensures var r := AppendPage(old(appJson), Values(old(appModuleList)), name, modulePath);
        match r
        case Appended(m1) =>
          && appJson == m1
          && s == (if writeOk then Resolved else Rejected)
          && persisted == (if writeOk then Some(m1) else old(persisted))
        case ModuleMissing =>
          appJson == old(appJson) && persisted == old(persisted) && s == Pending
        case NoSuchIndex =>
          appJson == old(appJson) && persisted == old(persisted) && s == Rejected
    {
      var r := AppendPage(appJson, Values(appModuleList), name, modulePath);
      match r
      case ModuleMissing =>
        s := Pending;
      case NoSuchIndex =>
        s := Rejected;
      case Appended(m1) =>
        appJson := m1;
        if writeOk {
          persisted := Some(appJson);
          s := Resolved;
        } else {
          s := Rejected;
        }
    }
  }

  // ---------------------------------------------------------------------
  // What the indices hold after parseAppJson.

  /** The key of the last assignment to it decides a key's value. */
  lemma {:induction false} AssignAllLastWins(o: JsObject, assigns: seq<(string, string)>, i: nat)
    requires i < |assigns|
    requires forall j :: i < j < |assigns| ==> assigns[j].0 != assigns[i].0
    ensures assigns[i].0 in AssignAll(o, assigns).vals
    ensures AssignAll(o, assigns).vals[assigns[i].0] == assigns[i].1
    decreases |assigns|
  {
    if i < |assigns| - 1 {
      AssignAllLastWins(o, assigns[..|assigns| - 1], i);
    }
  }

  /** Two runs of assignments one after the other are one run. */
  lemma {:induction false} AssignAllConcat(o: JsObject, a: seq<(string, string)>, b: seq<(string, string)>)
    ensures AssignAll(o, a + b) == AssignAll(AssignAll(o, a), b)
    decreases |b|
  {
    if |b| == 0 {
      assert a + b == a;
    } else {
      var n := |b| - 1;
      assert (a + b)[..|a + b| - 1] == a + b[..n];
      AssignAllConcat(o, a, b[..n]);
    }
  }

  /** One sub-package more: its root is one more module assignment, its
      pages a run of page assignments after those already made. */
  lemma ParseStep(modules: JsObject, pages: JsObject, subs: seq<SubPackage>, j: nat)
    requires j < |subs|
    ensures AssignAll(modules, ModuleEntries(subs[..j + 1]))
         == Put(AssignAll(modules, ModuleEntries(subs[..j])), PathKey(subs[j].root), subs[j].root)
    ensures AssignAll(pages, SubPageEntries(subs[..j + 1]))
         == AssignAll(AssignAll(pages, SubPageEntries(subs[..j])), OwnedEntries(subs[j].pages, subs[j].root))
  {
    assert subs[..j + 1][..j] == subs[..j];
    assert ModuleEntries(subs[..j + 1]) == ModuleEntries(subs[..j]) + [(PathKey(subs[j].root), subs[j].root)];
    AssignAllConcat(pages, SubPageEntries(subs[..j]), OwnedEntries(subs[j].pages, subs[j].root));
  }

  /** A key no assignment touches keeps its old value (or stays absent). */
  lemma {:induction false} AssignAllUntouched(o: JsObject, assigns: seq<(string, string)>, k: string)
    requires forall j :: 0 <= j < |assigns| ==> assigns[j].0 != k
    ensures k in AssignAll(o, assigns).vals <==> k in o.vals
    ensures k in o.vals ==> AssignAll(o, assigns).vals[k] == o.vals[k]
    decreases |assigns|
  {
    if |assigns| > 0 {
      AssignAllUntouched(o, assigns[..|assigns| - 1], k);
    }
  }

  /** When every assignment to k writes the same value v (and there is one),
      k ends up holding v. */
  lemma {:induction false} AssignAllUniform(o: JsObject, assigns: seq<(string, string)>, k: string, v: string)
    requires exists j :: 0 <= j < |assigns| && assigns[j].0 == k
    requires forall j :: 0 <= j < |assigns| && assigns[j].0 == k ==> assigns[j].1 == v
    ensures k in AssignAll(o, assigns).vals && AssignAll(o, assigns).vals[k] == v
    decreases |assigns|
  {
    var n := |assigns| - 1;
    if assigns[n].0 != k {
      var j :| 0 <= j < |assigns| && assigns[j].0 == k;
      assert assigns[..n][j] == assigns[j];
      AssignAllUniform(o, assigns[..n], k, v);
    }
  }

  function KeysOf(assigns: seq<(string, string)>): (ks: seq<string>)
    ensures |ks| == |assigns|
    ensures forall i :: 0 <= i < |assigns| ==> ks[i] == assigns[i].0
  {
    seq(|assigns|, i requires 0 <= i < |assigns| => assigns[i].0)
  }

  function ValuesOf(assigns: seq<(string, string)>): (vs: seq<string>)
    ensures |vs| == |assigns|
    ensures forall i :: 0 <= i < |assigns| ==> vs[i] == assigns[i].1
  {
    seq(|assigns|, i requires 0 <= i < |assigns| => assigns[i].1)
  }

  /** From an empty object, assignments with distinct keys give an object
      whose keys and values are theirs, in the same order. */
  lemma {:induction false} AssignAllDistinct(assigns: seq<(string, string)>)
    requires Distinct(KeysOf(assigns))
    ensures AssignAll(Empty, assigns).keys == KeysOf(assigns)
    ensures forall i :: 0 <= i < |assigns| ==>
      assigns[i].0 in AssignAll(Empty, assigns).vals && AssignAll(Empty, assigns).vals[assigns[i].0] == assigns[i].1
    decreases |assigns|
  {
    if |assigns| > 0 {
      var n := |assigns| - 1;
      var pre := assigns[..n];
      assert Distinct(KeysOf(pre)) by {
        assert forall i :: 0 <= i < n ==> KeysOf(pre)[i] == KeysOf(assigns)[i];
      }
      AssignAllDistinct(pre);
      var o := AssignAll(Empty, pre);
      assert WellFormed(o) by { assert WellFormed(Empty); }
      AssignDistinctStep(assigns, pre, o);
    }
  }

  /** The last assignment of a distinct run adds a new key and leaves the
      values of the earlier keys alone. */
  lemma AssignDistinctStep(assigns: seq<(string, string)>, pre: seq<(string, string)>, o: JsObject)
    requires |assigns| > 0 && pre == assigns[..|assigns| - 1] && Distinct(KeysOf(assigns))
    requires WellFormed(o) && o.keys == KeysOf(pre)
    requires forall i :: 0 <= i < |pre| ==> pre[i].0 in o.vals && o.vals[pre[i].0] == pre[i].1
    ensures var r := Put(o, assigns[|assigns| - 1].0, assigns[|assigns| - 1].1);
      && r.keys == KeysOf(assigns)
      && forall i :: 0 <= i < |assigns| ==> assigns[i].0 in r.vals && r.vals[assigns[i].0] == assigns[i].1
  {
    var n := |assigns| - 1;
    var k := assigns[n].0;
    assert k !in o.keys by {
      assert forall i :: 0 <= i < n ==> o.keys[i] == KeysOf(assigns)[i];
    }
    assert KeysOf(assigns) == o.keys + [k];
  }

  /** Hence Object.values of such an object lists the assigned values. */
  lemma ValuesOfDistinct(assigns: seq<(string, string)>)
    requires Distinct(KeysOf(assigns))
    ensures Values(AssignAll(Empty, assigns)) == ValuesOf(assigns)
  {
    AssignAllDistinct(assigns);
  }

  /** A fresh index never holds more keys than assignments were made. */
  lemma {:induction false} AssignAllSize(o: JsObject, assigns: seq<(string, string)>)
    ensures |AssignAll(o, assigns).keys| <= |o.keys| + |assigns|
    decreases |assigns|
  {
    if |assigns| > 0 {
      AssignAllSize(o, assigns[..|assigns| - 1]);
    }
  }

  /** Every page of a sub-package contributes (its key, that root). */
  lemma {:induction false} SubPageEntriesHas(subs: seq<SubPackage>, j: nat, k: nat)
    requires j < |subs| && k < |subs[j].pages|
    ensures (PathKey(subs[j].pages[k]), subs[j].root) in SubPageEntries(subs)
    decreases |subs|
  {
    var n := |subs| - 1;
    if j < n {
      SubPageEntriesHas(subs[..n], j, k);
    } else {
      assert OwnedEntries(subs[n].pages, subs[n].root)[k] == (PathKey(subs[j].pages[k]), subs[j].root);
    }
  }

  /** Every assignment for the sub-packages comes from one of their pages. */
  lemma {:induction false} SubPageEntriesFrom(subs: seq<SubPackage>, e: (string, string))
    requires e in SubPageEntries(subs)
    ensures exists j, k :: 0 <= j < |subs| && 0 <= k < |subs[j].pages| && e == (PathKey(subs[j].pages[k]), subs[j].root)
    decreases |subs|
  {
    var n := |subs| - 1;
    var pre := subs[..n];
    if e in SubPageEntries(pre) {
      SubPageEntriesFrom(pre, e);
      var j, k :| 0 <= j < |pre| && 0 <= k < |pre[j].pages| && e == (PathKey(pre[j].pages[k]), pre[j].root);
      assert pre[j] == subs[j];
    } else {
      var k :| 0 <= k < |subs[n].pages| && OwnedEntries(subs[n].pages, subs[n].root)[k] == e;
    }
  }

  /** A main-bundle page whose key no sub-package page shares is indexed
      with owner "" (the main bundle). */
  lemma MainPageOwner(o: JsObject, m: AppJson, i: nat)
    requires i < |m.pages|
    requires forall j, k :: 0 <= j < |m.subPackages| && 0 <= k < |m.subPackages[j].pages| ==>
      PathKey(m.subPackages[j].pages[k]) != PathKey(m.pages[i])
    ensures PathKey(m.pages[i]) in AssignAll(o, PageEntries(m)).vals
    ensures AssignAll(o, PageEntries(m)).vals[PathKey(m.pages[i])] == ""
  {
    var es := PageEntries(m);
    var key := PathKey(m.pages[i]);
    var main := OwnedEntries(m.pages, "");
    assert es[i] == (key, "");
    forall j | 0 <= j < |es| && es[j].0 == key ensures es[j].1 == "" {
      if j >= |main| {
        assert es[j] in SubPageEntries(m.subPackages);
        SubPageEntriesFrom(m.subPackages, es[j]);
      }
    }
    AssignAllUniform(o, es, key, "");
  }

  /** A sub-package page whose key no page of another sub-package shares is
      indexed with its sub-package's root: the sub-package pages are assigned
      after the main bundle's, so a main page with that key is overwritten. */
  lemma SubPageOwner(o: JsObject, m: AppJson, j: nat, k: nat)
    requires j < |m.subPackages| && k < |m.subPackages[j].pages|
    requires forall j', k' :: 0 <= j' < |m.subPackages| && 0 <= k' < |m.subPackages[j'].pages| && j' != j ==>
      PathKey(m.subPackages[j'].pages[k']) != PathKey(m.subPackages[j].pages[k])
    ensures PathKey(m.subPackages[j].pages[k]) in AssignAll(o, PageEntries(m)).vals
    ensures AssignAll(o, PageEntries(m)).vals[PathKey(m.subPackages[j].pages[k])] == m.subPackages[j].root
  {
    var key := PathKey(m.subPackages[j].pages[k]);
    var root := m.subPackages[j].root;
    var main := OwnedEntries(m.pages, "");
    var sub := SubPageEntries(m.subPackages);
    SubPageEntriesHas(m.subPackages, j, k);
    forall x | 0 <= x < |sub| && sub[x].0 == key ensures sub[x].1 == root {
      assert sub[x] in sub;
      SubPageEntriesFrom(m.subPackages, sub[x]);
    }
    AssignAllUniform(AssignAll(o, main), sub, key, root);
    AssignAllConcat(o, main, sub);
  }

  /** A sub-package whose module key no later sub-package shares is indexed
      with its root. */
  lemma ModuleOwner(o: JsObject, subs: seq<SubPackage>, j: nat)
    requires j < |subs|
    requires forall i :: j < i < |subs| ==> PathKey(subs[i].root) != PathKey(subs[j].root)
    ensures PathKey(subs[j].root) in AssignAll(o, ModuleEntries(subs)).vals
    ensures AssignAll(o, ModuleEntries(subs)).vals[PathKey(subs[j].root)] == subs[j].root
  {
    AssignAllLastWins(o, ModuleEntries(subs), j);
  }

  /** A later page with the same key overwrites an earlier one: a main page
      and a sub-package page both named n leave n owned by the sub-package. */
  lemma LaterPageOverwrites(o: JsObject, n: string, root: string)
    requires n != "" && '/' !in n
    ensures var m := AppJson([PagePath(n)], [SubPackage(root, [PagePath(n)])]);
      n in AssignAll(o, PageEntries(m)).vals && AssignAll(o, PageEntries(m)).vals[n] == root
  {
    var m := AppJson([PagePath(n)], [SubPackage(root, [PagePath(n)])]);
    PagePathKey(n);
    var es := PageEntries(m);
    assert SubPageEntries(m.subPackages) == SubPageEntries([]) + OwnedEntries([PagePath(n)], root) by {
      assert m.subPackages[..0] == [];
    }
    assert es == [(n, ""), (n, root)];
    AssignAllLastWins(o, es, 1);
  }

  // ---------------------------------------------------------------------
  // The positional lookup of writePageAppJson.

  /** The module keys of a manifest are pairwise distinct. */
  predicate DistinctModuleKeys(subs: seq<SubPackage>)
  {
    forall i, j :: 0 <= i < j < |subs| ==> PathKey(subs[i].root) != PathKey(subs[j].root)
  }

  function Roots(subs: seq<SubPackage>): (rs: seq<string>)
    ensures |rs| == |subs|
    ensures forall i :: 0 <= i < |subs| ==> rs[i] == subs[i].root
  {
    seq(|subs|, i requires 0 <= i < |subs| => subs[i].root)
  }

  /** With distinct module keys, Object.values of a freshly built module index
      lists the roots in manifest order, so the position indexOf finds is the
      first sub-package whose root is modulePath: the page goes there. */
  lemma PositionalLookupCorrect(m: AppJson, name: string, modulePath: string)
    requires DistinctModuleKeys(m.subPackages)
    requires modulePath != "" && modulePath in Roots(m.subPackages)
    ensures Values(AssignAll(Empty, ModuleEntries(m.subPackages))) == Roots(m.subPackages)
    ensures var r := AppendPage(m, Roots(m.subPackages), name, modulePath);
      && r.Appended?
      && (exists idx :: 0 <= idx < |m.subPackages| && m.subPackages[idx].root == modulePath
           && (forall j :: 0 <= j < idx ==> m.subPackages[j].root != modulePath)
           && AppendedTo(m, r.manifest, idx, name))
  {
    var es := ModuleEntries(m.subPackages);
    var rs := Roots(m.subPackages);
    assert Values(AssignAll(Empty, es)) == rs by {
      ValuesOfDistinct(es);
      assert ValuesOf(es) == rs;
    }
    var idx := IndexOf(rs, modulePath);
    assert forall j :: 0 <= j < idx ==> m.subPackages[j].root != modulePath by {
      forall j | 0 <= j < idx ensures m.subPackages[j].root != modulePath {
        assert rs[..idx][j] == rs[j];
      }
    }
    assert m.subPackages[idx].root == modulePath;
  }

  /** Three sub-packages a/x, b/x, c/y where the first two share the key x. */
  function Colliding(a: string, b: string, c: string, x: string, y: string): AppJson
  {
    AppJson([], [SubPackage(a + "/" + x, []), SubPackage(b + "/" + x, []), SubPackage(c + "/" + y, [])])
  }

  /** The roots collapse to the keys x and y, so Object.values of the module
      index is [b/x, c/y]: two values for three sub-packages. */
  lemma CollidingValues(a: string, b: string, c: string, x: string, y: string)
    requires '/' !in a && '/' !in b && '/' !in c && '/' !in x && '/' !in y
    requires x != "" && y != "" && x != y
    ensures Values(AssignAll(Empty, ModuleEntries(Colliding(a, b, c, x, y).subPackages))) == [b + "/" + x, c + "/" + y]
  {
    var ax, bx, cy := a + "/" + x, b + "/" + x, c + "/" + y;
    var es := ModuleEntries(Colliding(a, b, c, x, y).subPackages);
    CollidingEntries(a, b, c, x, y);
    var o3 := Put(Put(Put(Empty, x, ax), x, bx), y, cy);
    assert AssignAll(Empty, es) == o3 by {
      var e1, e2, e3 := (x, ax), (x, bx), (y, cy);
      assert es == [e1, e2] + [e3] && [e1, e2] == [e1] + [e2] && [e1] == [] + [e1];
      AssignAllSnoc(Empty, [], e1);
      AssignAllSnoc(Empty, [e1], e2);
      AssignAllSnoc(Empty, [e1, e2], e3);
    }
    CollidingPuts(x, y, ax, bx, cy);
  }

  /** The three assignments x = ax, x = bx, y = cy to an empty object. */
  lemma CollidingPuts(x: string, y: string, ax: string, bx: string, cy: string)
    requires x != y
    ensures var o3 := Put(Put(Put(Empty, x, ax), x, bx), y, cy);
      WellFormed(o3) && o3.keys == [x, y] && o3.vals[x] == bx && o3.vals[y] == cy
  {
    var o1 := Put(Empty, x, ax);
    assert o1.keys == [x];
    var o2 := Put(o1, x, bx);
    assert o2.keys == [x];
  }

  /** The module index assignments of the colliding manifest. */
  lemma CollidingEntries(a: string, b: string, c: string, x: string, y: string)
    requires '/' !in a && '/' !in b && '/' !in c && '/' !in x && '/' !in y
    requires x != "" && y != ""
    ensures ModuleEntries(Colliding(a, b, c, x, y).subPackages)
         == [(x, a + "/" + x), (x, b + "/" + x), (y, c + "/" + y)]
  {
    TwoSegmentKey(a, x);
    TwoSegmentKey(b, x);
    TwoSegmentKey(c, y);
  }

  /** One assignment more at the end. */
  lemma AssignAllSnoc(o: JsObject, assigns: seq<(string, string)>, a: (string, string))
    ensures AssignAll(o, assigns + [a]) == Put(AssignAll(o, assigns), a.0, a.1)
  {
    assert (assigns + [a])[..|assigns|] == assigns;
  }

  /** Two directories a != b give two different roots a/x and b/x. */
  lemma SameKeyDistinctRoots(a: string, b: string, x: string)
    requires a != b
    ensures a + "/" + x != b + "/" + x
  {
    var ax, bx := a + "/" + x, b + "/" + x;
    if |a| == |b| {
      assert ax[..|a|] == a && bx[..|b|] == b;
    }
  }

  /** Without distinct module keys the lookup goes wrong: a page meant for
      c/y lands in b/x (position 1 of the values is position 1 of the
      manifest), and a/x can never be found. */
  lemma PositionalLookupMisplaces(a: string, b: string, c: string, x: string, y: string)
    requires '/' !in a && '/' !in b && '/' !in c && '/' !in x && '/' !in y
    requires x != "" && y != "" && x != y && a != b
    ensures var m := Colliding(a, b, c, x, y);
      var values := Values(AssignAll(Empty, ModuleEntries(m.subPackages)));
      && AppendPage(m, values, "p", c + "/" + y)
         == Appended(m.(subPackages := m.subPackages[1 := SubPackage(b + "/" + x, [PagePath("p")])]))
      && AppendPage(m, values, "p", a + "/" + x) == ModuleMissing
  {
    CollidingValues(a, b, c, x, y);
    var ax, bx, cy := a + "/" + x, b + "/" + x, c + "/" + y;
    TwoSegmentKey(a, x);
    TwoSegmentKey(b, x);
    TwoSegmentKey(c, y);
    assert bx != cy && ax != cy;
    SameKeyDistinctRoots(a, b, x);
    assert ax !in [bx, cy];
    assert IndexOf([bx, cy], cy) == 1;
    var m := Colliding(a, b, c, x, y);
    assert m.subPackages[1].pages + [PagePath("p")] == [PagePath("p")];
  }

  /** A module path taken from the index's values is always found, at a
      position that exists when the index was built from this manifest: the
      append never hangs and never throws. */
  lemma ListedModuleIsFound(m: AppJson, name: string, key: string)
    requires key in AssignAll(Empty, ModuleEntries(m.subPackages)).vals
    ensures var o := AssignAll(Empty, ModuleEntries(m.subPackages));
      o.vals[key] != "" ==> AppendPage(m, Values(o), name, o.vals[key]).Appended?
  {
    var o := AssignAll(Empty, ModuleEntries(m.subPackages));
    AssignAllSize(Empty, ModuleEntries(m.subPackages));
    var i :| 0 <= i < |o.keys| && o.keys[i] == key;
    assert Values(o)[i] == o.vals[key];
  }
}
