/** createPage and the command's entry point in lib/create-program-fs.js:
    check the template and the target, create the page directory, list the
    template, copy every template file renamed to the page name, then record
    the page in app.json. */
module Scaffold {
  import opened Wrappers
  import opened Paths
  import opened Disk
  import opened Manifest
  import opened Questionnaire

  /** Where an error thrown inside a file-system callback stops the run. */
  datatype Stage = AtMkdir | AtReadDir | AtCopy

  datatype Outcome =
    | TemplateMissing      // the template directory does not exist
    | PageExists           // the page directory already exists
    | Crashed(stage: Stage)
    | Hung                 // writePageAppJson never settles
    | WriteRejected        // writePageAppJson rejects
    | Created

  /** path.join(`${template}/${appType}`, '/page'): for plain names the
      page directory of the app type's template, segments separated by one
      '/'; an empty template directory makes it an absolute path. */
  function TemplateRoot(template: string, appType: string): (r: string)
    ensures r != ""
    ensures PlainSegment(template) && PlainSegment(appType) ==> r == Join([template, appType, "page"])
    ensures template == "" ==> r[0] == '/'
  {
    var first := template + "/" + appType;
    assert JoinNonEmpty([first, "/page"]) == first + "/" + "/page" by {
      JoinNonEmptyTwo(first, "/page");
    }
    assert PlainSegment(template) && PlainSegment(appType) ==>
      JoinPath([first, "/page"]) == Join([template, appType, "page"]) by {
      if PlainSegment(template) && PlainSegment(appType) {
        assert "/page" == "/" + "page";
        TemplateDir(template, appType, "page");
      }
    }
    JoinPath([first, "/page"])
  }

  /** path.join(`${template}/${appType}`, '/' + dir) for plain names. */
  lemma TemplateDir(template: string, appType: string, dir: string)
    requires PlainSegment(template) && PlainSegment(appType) && PlainSegment(dir)
    ensures JoinPath([template + "/" + appType, "/" + dir]) == Join([template, appType, dir])
  {
    var parts := [template + "/" + appType, "/" + dir];
    var segs := [template, appType, "", dir];
    assert JoinNonEmpty(parts) == Join(segs) by {
      JoinNonEmptyTwo(template + "/" + appType, "/" + dir);
      JoinFour(template, appType, "", dir);
      LeadingSlash(template + "/" + appType, dir, "");
    }
    assert NonEmpty(segs) == [template, appType, dir] by {
      assert segs == [template, appType] + [""] + [dir];
      NonEmptyGap([template, appType], [""], [dir]);
    }
    JoinPathPlain(parts, segs);
  }

  /** path.join(entry, modulePath, '/pages', name): for plain names the
      directory entry/pages/name of the main bundle, or
      entry/modulePath/pages/name of a sub-package, each separated by one
      '/'. */
  function PageRoot(entry: string, modulePath: string, name: string): (r: string)
    ensures r != ""
    ensures PlainSegment(entry) && PlainSegment(name) && modulePath == "" ==> r == Join([entry, "pages", name])
    ensures PlainSegment(entry) && PlainSegment(modulePath) && PlainSegment(name) ==>
      r == Join([entry, modulePath, "pages", name])
  {
    assert "/pages" == "/" + "pages" && PlainSegment("pages");
    assert PlainSegment(entry) && PlainSegment(name) && modulePath == "" ==>
      JoinPath([entry, modulePath, "/pages", name]) == Join([entry, "pages", name]) by {
      if PlainSegment(entry) && PlainSegment(name) && modulePath == "" {
        MainPageDir(entry, "pages", name);
      }
    }
    assert PlainSegment(entry) && PlainSegment(modulePath) && PlainSegment(name) ==>
      JoinPath([entry, modulePath, "/pages", name]) == Join([entry, modulePath, "pages", name]) by {
      if PlainSegment(entry) && PlainSegment(modulePath) && PlainSegment(name) {
        SubPageDir(entry, modulePath, "", "pages", name);
        assert modulePath + "" == modulePath;
      }
    }
    JoinPath([entry, modulePath, "/pages", name])
  }

  /** path.join(entry, '', '/' + dir, name) for plain names. */
  lemma MainPageDir(entry: string, dir: string, name: string)
    requires PlainSegment(entry) && PlainSegment(dir) && PlainSegment(name)
    ensures JoinPath([entry, "", "/" + dir, name]) == Join([entry, dir, name])
  {
    var parts := [entry, "", "/" + dir, name];
    var segs := [entry, "", dir, name];
    assert JoinNonEmpty(parts) == Join(segs) by {
      JoinNonEmptyFour(entry, "", "/" + dir, name);
      JoinFour(entry, "", dir, name);
      LeadingSlash(entry, dir, "/" + name);
    }
    assert NonEmpty(segs) == [entry, dir, name] by {
      assert segs == [entry] + [""] + [dir, name];
      NonEmptyGap([entry], [""], [dir, name]);
    }
    JoinPathPlain(parts, segs);
  }

  /** path.join(entry, root + sep, '/' + dir, name) for plain names and a
      separator sep of "" or "/": the doubled '/' collapses. */
  lemma SubPageDir(entry: string, root: string, sep: string, dir: string, name: string)
    requires PlainSegment(entry) && PlainSegment(root) && PlainSegment(dir) && PlainSegment(name)
    requires sep == "" || sep == "/"
    ensures JoinPath([entry, root + sep, "/" + dir, name]) == Join([entry, root, dir, name])
  {
    if sep == "" {
      assert root + sep == root;
      SubPageDirBare(entry, root, dir, name);
    } else {
      SubPageDirSlashed(entry, root, dir, name);
    }
  }

  /** SubPageDir for a root written without a trailing '/'. */
  lemma SubPageDirBare(entry: string, root: string, dir: string, name: string)
    requires PlainSegment(entry) && PlainSegment(root) && PlainSegment(dir) && PlainSegment(name)
    ensures JoinPath([entry, root, "/" + dir, name]) == Join([entry, root, dir, name])
  {
    var parts := [entry, root, "/" + dir, name];
    var segs := [entry, root, "", dir, name];
    assert JoinNonEmpty(parts) == Join(segs) by {
      JoinNonEmptyFour(entry, root, "/" + dir, name);
      JoinFive(entry, root, "", dir, name);
      LeadingSlash(entry + "/" + root, dir, "/" + name);
    }
    assert NonEmpty(segs) == [entry, root, dir, name] by {
      assert segs == [entry, root] + [""] + [dir, name];
      NonEmptyGap([entry, root], [""], [dir, name]);
    }
    JoinPathPlain(parts, segs);
  }

  /** SubPageDir for a root written with a trailing '/'. */
  lemma SubPageDirSlashed(entry: string, root: string, dir: string, name: string)
    requires PlainSegment(entry) && PlainSegment(root) && PlainSegment(dir) && PlainSegment(name)
    ensures JoinPath([entry, root + "/", "/" + dir, name]) == Join([entry, root, dir, name])
  {
    var parts := [entry, root + "/", "/" + dir, name];
    var segs := [entry, root, "", "", dir, name];
    assert JoinNonEmpty(parts) == Join(segs) by {
      JoinNonEmptyFour(entry, root + "/", "/" + dir, name);
      JoinSix(entry, root, "", "", dir, name);
      assert entry + "/" + (root + "/") + "/" + ("/" + dir) + "/" + name
          == entry + "/" + root + "/" + "" + "/" + "" + "/" + dir + "/" + name;
    }
    assert NonEmpty(segs) == [entry, root, dir, name] by {
      assert segs == [entry, root] + ["", ""] + [dir, name];
      NonEmptyGap([entry, root], ["", ""], [dir, name]);
    }
    JoinPathPlain(parts, segs);
  }

  /** A sub-package root written with a trailing '/' in app.json names the
      same page directory as without it. */
  lemma PageRootTrailingSlash(entry: string, root: string, name: string)
    requires PlainSegment(entry) && PlainSegment(root) && PlainSegment(name)
    ensures PageRoot(entry, root + "/", name) == PageRoot(entry, root, name)
  {
    assert "/pages" == "/" + "pages" && PlainSegment("pages");
    SubPageDir(entry, root, "/", "pages", name);
    SubPageDir(entry, root, "", "pages", name);
    assert root + "" == root;
  }

  /** Every file of the template directory is a regular file, and no two of
      them share an extension. */
  ghost predicate TemplateFiles(e: Entries, t: string)
  {
    && (forall n :: n in Children(e, t) ==> Src(t, n) in e && e[Src(t, n)].File?)
    && (forall n, n' :: n in Children(e, t) && n' in Children(e, t) && n != n' ==> ExtName(n) != ExtName(n'))
  }

  /** The conditions under which createPage gets as far as app.json: a
      well-formed tree holding the template directory, a page directory that
      does not exist yet and can be created without passing through a file
      or through a template entry, and a name without '/'. */
  ghost predicate ReadyFor(e: Entries, t: string, p: string, name: string)
  {
    && Tree(e)
    && t in e && e[t].Dir? && TemplateFiles(e, t)
    && p != "" && p !in e
    && (forall q :: q in Ancestors(p) && q in e ==> e[q].Dir?)
    && (forall q :: q in Ancestors(p) ==> !IsChild(t, q))
    && '/' !in name
  }

  /** Creating the page directory adds no entry under the template
      directory when none of the new directories is one of its children. */
  lemma ChildrenAfterMkdir(e: Entries, t: string, p: string)
    requires MkdirP(e, p).Some?
    requires forall q :: q in Ancestors(p) ==> !IsChild(t, q)
    ensures Children(MkdirP(e, p).value, t) == Children(e, t)
  {
    var e1 := MkdirP(e, p).value;
    forall n | n in Children(e1, t) ensures n in Children(e, t) {
      var q :| q in e1 && IsChild(t, q) && q[|t| + 1..] == n;
      assert q in e;
    }
  }

  /** In a well-formed tree where the directory p is new, a path p/leaf is
      free once p has been created, and its directory is p. */
  lemma FreshChild(e: Entries, p: string, leaf: string)
    requires Tree(e) && p != "" && p !in e && MkdirP(e, p).Some?
    requires '/' !in leaf
    ensures p + "/" + leaf !in MkdirP(e, p).value && ParentIsDir(MkdirP(e, p).value, p + "/" + leaf)
  {
    var d := p + "/" + leaf;
    ParentOfChild(p, leaf);
    assert d !in e;
    assert |d| > |p|;
  }

  /** Every copy destination p/name + ext is free once p has been created,
      and its directory is p. */
  lemma FreshDestinations(e: Entries, p: string, name: string, files: seq<string>)
    requires Tree(e) && p != "" && p !in e && MkdirP(e, p).Some?
    requires '/' !in name
    requires forall i :: 0 <= i < |files| ==> '/' !in files[i]
    ensures var e1 := MkdirP(e, p).value;
      forall i :: 0 <= i < |files| ==> Dest(p + "/" + name, files[i]) !in e1 && ParentIsDir(e1, Dest(p + "/" + name, files[i]))
  {
    forall i | 0 <= i < |files|
      ensures Dest(p + "/" + name, files[i]) !in MkdirP(e, p).value
      ensures ParentIsDir(MkdirP(e, p).value, Dest(p + "/" + name, files[i]))
    {
      FreshDestination(e, p, name, files[i]);
    }
  }

  /** The copy destination of one template file is p/name + its extension. */
  lemma FreshDestination(e: Entries, p: string, name: string, f: string)
    requires Tree(e) && p != "" && p !in e && MkdirP(e, p).Some?
    requires '/' !in name && '/' !in f
    ensures Dest(p + "/" + name, f) !in MkdirP(e, p).value
    ensures ParentIsDir(MkdirP(e, p).value, Dest(p + "/" + name, f))
  {
    var x := ExtName(f);
    ExtNameHasNoSlash(f);
    assert Dest(p + "/" + name, f) == p + "/" + (name + x);
    FreshChild(e, p, name + x);
  }

  /** With everything ReadyFor asks, the whole template listing is copied. */
  lemma FreshPageCopiesAll(e: Entries, t: string, p: string, name: string, files: seq<string>)
    requires ReadyFor(e, t, p, name)
    requires Distinct(files) && (set n | n in files) == Children(MkdirP(e, p).value, t)
    ensures MkdirP(e, p).Some?
    ensures CopyAll(MkdirP(e, p).value, t, p + "/" + name, files).copied == |files|
  {
    var e1 := MkdirP(e, p).value;
    ChildrenAfterMkdir(e, t, p);
    forall i | 0 <= i < |files|
      ensures '/' !in files[i] && Src(t, files[i]) in e1 && e1[Src(t, files[i])].File?
    {
      assert files[i] in Children(e, t);
    }
    FreshDestinations(e, p, name, files);
    assert DistinctExtensions(files) by {
      forall i, j | 0 <= i < j < |files| ensures ExtName(files[i]) != ExtName(files[j]) {
        assert files[i] in Children(e, t) && files[j] in Children(e, t);
      }
    }
    CopyAllSucceeds(e1, t, p + "/" + name, files);
  }

  /** What createPage does, from the tree e, the manifest m and the last
      written manifest saved it starts with, to the tree e2, manifest m2 and
      saved2 it leaves: t is the template directory, p the page directory,
      values Object.values of the module index and files the template
      listing. Each exit is decided by the tree before the call; the tree
      is left alone up to the mkdir, and then holds the page directory and
      every copy made; only a run that copied everything reaches app.json,
      where the append, the missing module and the TypeError of AppendPage
      decide what is stored and written. */
  ghost predicate CreatePageEffect(e: Entries, e2: Entries, m: AppJson, m2: AppJson,
                                   saved: Option<AppJson>, saved2: Option<AppJson>, values: seq<string>,
                                   t: string, p: string, name: string, modulePath: string, writeOk: bool,
                                   outcome: Outcome, files: seq<string>)
  {
    && (outcome == TemplateMissing <==> t !in e)
    && (outcome == PageExists <==> t in e && p in e)
    && (outcome == Crashed(AtMkdir) <==> t in e && p !in e && MkdirP(e, p).None?)
    && (outcome in {TemplateMissing, PageExists, Crashed(AtMkdir)} ==> e2 == e)
    && (outcome !in {TemplateMissing, PageExists, Crashed(AtMkdir)} ==>
          var e1 := MkdirP(e, p).value;
          && (outcome == Crashed(AtReadDir) <==> !e1[t].Dir?)
          && (outcome != Crashed(AtReadDir) ==> Distinct(files) && (set n | n in files) == Children(e1, t))
          && e2 == CopyAll(e1, t, p + "/" + name, files).entries
          && p in e2 && e2[p].Dir?
          && (outcome == Crashed(AtCopy) <==> CopyAll(e1, t, p + "/" + name, files).copied < |files|))
    && (outcome.Crashed? || outcome in {TemplateMissing, PageExists} ==> m2 == m && saved2 == saved)
    && (!outcome.Crashed? && outcome !in {TemplateMissing, PageExists} ==>
          match AppendPage(m, values, name, modulePath)
          case Appended(m1) =>
            && m2 == m1
            && outcome == (if writeOk then Created else WriteRejected)
            && saved2 == (if writeOk then Some(m1) else saved)
          case ModuleMissing => outcome == Hung && m2 == m && saved2 == saved
          case NoSuchIndex => outcome == WriteRejected && m2 == m && saved2 == saved)
  }

  /** A page that createPage reports as created has its directory in the
      tree, and the manifest appended with pages/name/name is both stored
      and written to app.json. */
  lemma CreatedPageIsRecorded(e: Entries, e2: Entries, m: AppJson, m2: AppJson,
                              saved: Option<AppJson>, saved2: Option<AppJson>, values: seq<string>,
                              t: string, p: string, name: string, modulePath: string, writeOk: bool,
                              files: seq<string>)
    requires CreatePageEffect(e, e2, m, m2, saved, saved2, values, t, p, name, modulePath, writeOk, Created, files)
    ensures t in e && p !in e && p in e2 && e2[p].Dir?
    ensures writeOk && AppendPage(m, values, name, modulePath).Appended?
    ensures m2 == AppendPage(m, values, name, modulePath).manifest && saved2 == Some(m2)
  {
  }

  /** createPage(name, modulePath, appType) with Config.entry = entry and
      Config.template = template; writeOk is how the write of app.json ends.
      files is the template listing, in the order the file system gave. */
  method CreatePage(fs: FileSystem, store: AppData, entry: string, template: string,
                    name: string, modulePath: string, appType: string, writeOk: bool)
    returns (outcome: Outcome, files: seq<string>)
    requires store.Valid()
    modifies fs, store
    ensures store.Valid()
    ensures store.appModuleList == old(store.appModuleList) && store.appPagesList == old(store.appPagesList)
    ensures CreatePageEffect(old(fs.entries), fs.entries, old(store.appJson), store.appJson,
                             old(store.persisted), store.persisted, Values(old(store.appModuleList)),
                             TemplateRoot(template, appType), PageRoot(entry, modulePath, name),
                             name, modulePath, writeOk, outcome, files)
    ensures ReadyFor(old(fs.entries), TemplateRoot(template, appType), PageRoot(entry, modulePath, name), name) ==>
      outcome in {Hung, WriteRejected, Created}
  {
    files := [];
    var t := TemplateRoot(template, appType);
    var templateFound := fs.CheckFileIsExists(t);
    if !templateFound {
      return TemplateMissing, files;
    }
    var p := PageRoot(entry, modulePath, name);
    var pageFound := fs.CheckFileIsExists(p);
    if pageFound {
      return PageExists, files;
    }
    ghost var e := fs.entries;
    var made := fs.CreateDir(p);
    if !made {
      return Crashed(AtMkdir), files;
    }
    ghost var e1 := fs.entries;
    assert p in e1 && e1[p].Dir?;
    var listed;
    listed, files := fs.ReadDir(t);
    if !listed {
      return Crashed(AtReadDir), files;
    }
    var copied := fs.CopyFilesArr(t, p + "/" + name, files);
    CopyAllKeeps(e1, t, p + "/" + name, files);
    if ReadyFor(e, t, p, name) {
      FreshPageCopiesAll(e, t, p, name, files);
    }
    if copied < |files| {
      return Crashed(AtCopy), files;
    }
    var s := store.WritePageAppJson(name, modulePath, writeOk);
    outcome := match s
      case Pending => Hung
      case Rejected => WriteRejected
      case Resolved => Created;
  }

  /** What one run of the command ends with. */
  datatype RunResult =
    | AppJsonMissing      // app.json could not be loaded: process.exit(1)
    | NeverAnswered       // no typed name is ever accepted
    | PageRun(outcome: Outcome)
    | ComponentFailed     // createComponent is not defined
    | Ended               // any other mode

  /** module.exports: parse app.json into a fresh store, ask the questions,
      and act on the answers. loaded is the content of app.json (None when it
      cannot be loaded) and r what the user answers. */
  method Run(fs: FileSystem, entry: string, template: string, loaded: Option<AppJson>, r: Responses, writeOk: bool)
    returns (result: RunResult, store: AppData)
    modifies fs
    ensures fresh(store) && store.Valid()
    ensures result == AppJsonMissing <==> loaded.None?
    ensures loaded.Some? ==> (result == NeverAnswered <==> FirstAccepted(r.nameAttempts).None?)
    ensures loaded.Some? && FirstAccepted(r.nameAttempts).Some? ==>
      && (result.PageRun? <==> r.mode == "page")
      && (result == ComponentFailed <==> r.mode == "component")
      && (result == Ended <==> r.mode !in Modes)
    ensures !result.PageRun? ==> fs.entries == old(fs.entries) && store.persisted == None
    ensures loaded.Some? ==> store.appModuleList == AssignAll(Empty, ModuleEntries(loaded.value.subPackages))
    ensures loaded.Some? ==> store.appPagesList == AssignAll(Empty, PageEntries(loaded.value))
    ensures loaded.Some? && !result.PageRun? ==> store.appJson == loaded.value
    ensures loaded.Some? && r.modulePick in ModulePathChoices(AssignAll(Empty, ModuleEntries(loaded.value.subPackages))) ==>
      result != PageRun(Hung)
    ensures result.PageRun? ==>
      && loaded.Some? && FirstAccepted(r.nameAttempts).Some? && r.mode == "page"
      && var name := FirstAccepted(r.nameAttempts).value;
         var mp := ModulePathOrDefault(Given(ModuleFilter(store.appModuleList, r.modulePick)));
         && (exists files :: CreatePageEffect(old(fs.entries), fs.entries, loaded.value, store.appJson,
                                                None, store.persisted, Values(store.appModuleList),
                                                TemplateRoot(template, r.appType), PageRoot(entry, mp, name),
                                                name, mp, writeOk, result.outcome, files))
         && (ReadyFor(old(fs.entries), TemplateRoot(template, r.appType), PageRoot(entry, mp, name), name) &&
             r.modulePick in ModulePathChoices(store.appModuleList) ==>
               result.outcome == (if writeOk then Created else WriteRejected))
  {
    store := new AppData();
    var parsed := store.ParseAppJson(loaded);
    if !parsed {
      return AppJsonMissing, store;
    }
    var answers := Resolve(store.appModuleList, store.appPagesList, r);
    if answers.None? {
      return NeverAnswered, store;
    }
    var act := Dispatch(answers.value);
    match act {
      case MakePage(name, modulePath, appType) =>
        ghost var m := store.appJson;
        ghost var modules := store.appModuleList;
        if r.modulePick in ModulePathChoices(modules) {
          PageRequestIsSound(modules, store.appPagesList, r);
          if modulePath != "" {
            ListedModuleIsFound(m, name, r.modulePick);
          }
        }
        ghost var e := fs.entries;
        var outcome, files := CreatePage(fs, store, entry, template, name, modulePath, appType, writeOk);
        result := PageRun(outcome);
        assert CreatePageEffect(e, fs.entries, m, store.appJson, None, store.persisted, Values(modules),
                                TemplateRoot(template, appType), PageRoot(entry, modulePath, name),
                                name, modulePath, writeOk, outcome, files);
      case ComponentUndefined =>
        result := ComponentFailed;
      case ToTheEnd =>
        result := Ended;
    }
  }
}
