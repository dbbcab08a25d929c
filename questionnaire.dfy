/** The questionnaire of lib/create-program-fs.js: the name check, the
    `when` guards that decide which questions are asked, the `filter`s that
    turn a picked item into an answer, the `source` lists the pickers offer,
    and the dispatch on the collected answers. */
module Questionnaire {
  import opened Wrappers
  import opened Paths
  import opened Manifest

  // ---------------------------------------------------------------------
  // The name question.

  /** The character class of regEn. */
  const RegEn: set<char> := {
    '`', '~', '!', '@', '#', '$', '%', '^', '&', '*', '(', ')', '+', '<', '>',
    '?', ':', '"', '{', '}', ',', '.', '/', ';', '\'', '[', ']'
  }

  /** The character class of regCn (full-width punctuation, the middle dot,
      the em dash, '|' and the square brackets). */
  const RegCn: set<char> := {
    '·', '！', '#', '￥', '（', '—', '）', '：', '；', '“', '”', '‘', '、', '，',
    '|', '《', '。', '》', '？', '【', '】', '[', ']'
  }

  /** regex.test(s) for a regex that is a single character class: some
      character of s is in the class. */
  function MatchesClass(s: string, cls: set<char>): (b: bool)
    ensures b <==> exists i :: 0 <= i < |s| && s[i] in cls
    decreases |s|
  {
    if |s| == 0 then false
    else if s[0] in cls then true
    else
      var b := MatchesClass(s[1..], cls);
      assert b ==> exists i :: 0 <= i < |s| && s[i] in cls by {
        if b {
          var i :| 0 <= i < |s| - 1 && s[1..][i] in cls;
          assert s[i + 1] in cls;
        }
      }
      assert (exists i :: 0 <= i < |s| && s[i] in cls) ==> b by {
        if exists i :: 0 <= i < |s| && s[i] in cls {
          var i :| 0 <= i < |s| && s[i] in cls;
          assert s[1..][i - 1] in cls;
        }
      }
      b
  }

  datatype Verdict =
    | Accept
    | EmptyName  // 'You must input name!!!'
    | BadName    // 'The name entered does not conform to the rule!!!'

  /** The validate callback of the name question. Only the empty string is
      refused as empty: blanks are accepted and not trimmed. */
  function Validate(input: string): (v: Verdict)
    ensures v == EmptyName <==> input == ""
    ensures v == BadName <==> input != "" && exists i :: 0 <= i < |input| && (input[i] in RegEn || input[i] in RegCn)
    ensures v == Accept <==> input != "" && forall i :: 0 <= i < |input| ==> input[i] !in RegEn && input[i] !in RegCn
  {
    if input == "" then EmptyName
    else if MatchesClass(input, RegEn) || MatchesClass(input, RegCn) then BadName
    else Accept
  }

  /** An accepted name is a single non-empty path segment without an
      extension: it has neither '/' nor '.'. */
  lemma AcceptedNameIsSegment(name: string)
    requires Validate(name) == Accept
    ensures name != "" && '/' !in name && '.' !in name
  {
    assert '/' in RegEn && '.' in RegEn;
  }

  /** The prompt repeats the name question until an answer is accepted: the
      first accepted attempt, or None when none of them is. */
  function FirstAccepted(attempts: seq<string>): (r: Option<string>)
    ensures r.None? <==> forall i :: 0 <= i < |attempts| ==> Validate(attempts[i]) != Accept
    ensures r.Some? ==> exists i :: 0 <= i < |attempts| && attempts[i] == r.value
                          && Validate(attempts[i]) == Accept
                          && forall j :: 0 <= j < i ==> Validate(attempts[j]) != Accept
    decreases |attempts|
  {
    if |attempts| == 0 then None
    else if Validate(attempts[0]) == Accept then Some(attempts[0])
    else
      var r := FirstAccepted(attempts[1..]);
      assert r.None? ==> forall i :: 0 <= i < |attempts| ==> Validate(attempts[i]) != Accept by {
        if r.None? {
          forall i | 1 <= i < |attempts| ensures Validate(attempts[i]) != Accept {
            assert attempts[i] == attempts[1..][i - 1];
          }
        }
      }
      assert r.Some? ==> exists i :: 0 <= i < |attempts| && attempts[i] == r.value
                           && Validate(attempts[i]) == Accept
                           && forall j :: 0 <= j < i ==> Validate(attempts[j]) != Accept by {
        if r.Some? {
          var i :| 0 <= i < |attempts| - 1 && attempts[1..][i] == r.value
                   && Validate(attempts[1..][i]) == Accept
                   && forall j :: 0 <= j < i ==> Validate(attempts[1..][j]) != Accept;
          forall j | 0 <= j < i + 1 ensures Validate(attempts[j]) != Accept {
            if j > 0 {
              assert attempts[j] == attempts[1..][j - 1];
            }
          }
          assert attempts[i + 1] == r.value;
        }
      }
      r
  }

  // ---------------------------------------------------------------------
  // Answers, guards, filters and sources.

  /** An answer slot: the question was skipped by its guard, or answered. */
  datatype Slot<T> = Unasked | Given(v: T)

  /** What the parentPage filter returns: '' for "none", otherwise an object
      with the page key and its owning root (undefined for an unknown key). */
  datatype PageChoice = NoPage | PageRef(page: string, root: Option<string>)

  /** The answers object the prompt resolves with. A module filter yields
      undefined (None) for a key the module index does not hold. */
  datatype Answers = Answers(
    appType: string,
    mode: string,
    name: string,
    modulePath: Slot<Option<string>>,
    componentScope: Slot<string>,
    parentModule: Slot<Option<string>>,
    parentPage: Slot<PageChoice>)

  const AppTypes: seq<string> := ["alipay", "weapp"]
  const Modes: seq<string> := ["page", "component"]
  const Scopes: seq<string> := ["global", "module", "page"]

  /** The `when` guard of modulePath: asked exactly for a page, which is
      one of the two modes and never one that gets the scope question. */
  predicate AskModulePath(a: Answers): (b: bool)
    ensures b <==> a.mode in Modes && !AskComponentScope(a)
  {
    a.mode == "page"
  }

  /** The `when` guard of componentScope: asked only for a component. */
  predicate AskComponentScope(a: Answers): (b: bool)
    ensures b <==> a.mode in Modes && a.mode != "page"
  {
    a.mode == "component"
  }

  /** The `when` guard of parentModule: only after the scope question, and
      never together with parentPage. */
  predicate AskParentModule(a: Answers): (b: bool)
    ensures b ==> AskComponentScope(a) && !AskParentPage(a)
  {
    a.mode == "component" && a.componentScope == Given("module")
  }

  /** The `when` guard of parentPage: only after the scope question, and
      only when "module" was not the scope given. */
  predicate AskParentPage(a: Answers): (b: bool)
    ensures b ==> AskComponentScope(a) && a.componentScope.Given? && a.componentScope.v != "module"
  {
    a.mode == "component" && a.componentScope == Given("page")
  }

  /** The filter of the modulePath and parentModule questions: "none" is
      the main bundle (''), any other item is looked up in the module index,
      and an item the index does not hold gives undefined (None). */
  function ModuleFilter(modules: JsObject, input: string): (r: Option<string>)
    ensures r.None? <==> input != "none" && input !in modules.vals
    ensures input == "none" ==> r == Some("")
    ensures r.Some? && input != "none" ==> input in modules.vals && r.value == modules.vals[input]
  {
    if input == "none" then Some("")
    else if input in modules.vals then Some(modules.vals[input])
    else None
  }

  /** The filter of the parentPage question: '' for "none", otherwise the
      picked key with its root, which is defined exactly when the page index
      holds the key. */
  function PageFilter(pages: JsObject, input: string): (r: PageChoice)
    ensures r == NoPage <==> input == "none"
    ensures r.PageRef? ==> r.page == input && (r.root.Some? <==> input in pages.vals)
    ensures r.PageRef? && r.root.Some? ==> r.root.value == pages.vals[input]
  {
    if input == "none" then NoPage
    else PageRef(input, if input in pages.vals then Some(pages.vals[input]) else None)
  }

  /** The items the modulePath picker offers (with an empty filter text):
      "none" first, then the module keys in insertion order; for a
      well-formed index, an item is offered exactly when it is "none" or a
      module key, and no item twice unless a module is itself called "none". */
  function ModulePathChoices(modules: JsObject): (cs: seq<string>)
    ensures |cs| == |modules.keys| + 1 && cs[0] == "none"
    ensures WellFormed(modules) ==> forall c :: c in cs <==> c == "none" || c in modules.vals
    ensures WellFormed(modules) && "none" !in modules.vals ==> Distinct(cs)
  {
    var cs := ["none"] + modules.keys;
    assert forall i :: 1 <= i < |cs| ==> cs[i] == modules.keys[i - 1];
    cs
  }

  /** The items the parentModule picker offers: the module keys, no "none";
      for a well-formed index, exactly the keys the filter can look up, each
      once. */
  function ParentModuleChoices(modules: JsObject): (cs: seq<string>)
    ensures WellFormed(modules) ==> forall c :: c in cs <==> c in modules.vals
    ensures WellFormed(modules) ==> Distinct(cs)
  {
    modules.keys
  }

  /** The items the parentPage picker offers: the page keys; for a
      well-formed index, exactly the keys the filter finds a root for, each
      once. */
  function ParentPageChoices(pages: JsObject): (cs: seq<string>)
    ensures WellFormed(pages) ==> forall c :: c in cs <==> c in pages.vals
    ensures WellFormed(pages) ==> Distinct(cs)
  {
    pages.keys
  }

  /** A picked modulePath item always filters to a defined module path: ''
      for "none", otherwise the root that the module index holds for it, so
      it is among Object.values of that index. */
  lemma PickedModuleIsListed(modules: JsObject, pick: string)
    requires WellFormed(modules)
    requires pick in ModulePathChoices(modules)
    ensures ModuleFilter(modules, pick).Some?
    ensures var v := ModuleFilter(modules, pick).value;
      v == "" || (pick in modules.vals && v == modules.vals[pick] && v in Values(modules))
  {
    if pick != "none" {
      var i :| 0 <= i < |ModulePathChoices(modules)| && ModulePathChoices(modules)[i] == pick;
      assert modules.keys[i - 1] == pick;
      assert Values(modules)[i - 1] == modules.vals[pick];
    }
  }

  /** A picked parentModule item filters to the root the module index holds
      for it; only a module whose key is literally "none" is turned into ''
      instead. */
  lemma PickedParentModule(modules: JsObject, pick: string)
    requires WellFormed(modules)
    requires pick in ParentModuleChoices(modules)
    ensures pick in modules.vals
    ensures ModuleFilter(modules, pick) == Some(if pick == "none" then "" else modules.vals[pick])
  {
  }

  /** A picked parentPage item names a page the index knows, with its root. */
  lemma PickedPageIsListed(pages: JsObject, pick: string)
    requires WellFormed(pages)
    requires pick in ParentPageChoices(pages) && pick != "none"
    ensures PageFilter(pages, pick) == PageRef(pick, Some(pages.vals[pick]))
  {
  }

  /** What the user does at each question: the chosen list items, the typed
      names (one per attempt) and the picked autocomplete items. */
  datatype Responses = Responses(
    appType: string,
    mode: string,
    nameAttempts: seq<string>,
    modulePick: string,
    scope: string,
    parentModulePick: string,
    parentPagePick: string)

  /** inquirer.prompt over the questions in order, each guard seeing the
      answers given so far. None: no name attempt is accepted, so the prompt
      never resolves. */
  function Resolve(modules: JsObject, pages: JsObject, r: Responses): (res: Option<Answers>)
    ensures res.None? <==> FirstAccepted(r.nameAttempts).None?
    ensures res.Some? ==>
      var a := res.value;
      && a.appType == r.appType && a.mode == r.mode
      && Some(a.name) == FirstAccepted(r.nameAttempts)
      && (a.modulePath != Unasked <==> r.mode == "page")
      && (a.componentScope != Unasked <==> r.mode == "component")
      && (a.parentModule != Unasked <==> r.mode == "component" && r.scope == "module")
      && (a.parentPage != Unasked <==> r.mode == "component" && r.scope == "page")
      && !(a.parentModule != Unasked && a.parentPage != Unasked)
      && (a.modulePath != Unasked ==> a.modulePath == Given(ModuleFilter(modules, r.modulePick)))
      && (a.componentScope != Unasked ==> a.componentScope == Given(r.scope))
      && (a.parentModule != Unasked ==> a.parentModule == Given(ModuleFilter(modules, r.parentModulePick)))
      && (a.parentPage != Unasked ==> a.parentPage == Given(PageFilter(pages, r.parentPagePick)))
  {
    match FirstAccepted(r.nameAttempts)
    case None => None
    case Some(name) =>
      var a0 := Answers(r.appType, r.mode, name, Unasked, Unasked, Unasked, Unasked);
      var a1 := if AskModulePath(a0) then a0.(modulePath := Given(ModuleFilter(modules, r.modulePick))) else a0;
      var a2 := if AskComponentScope(a1) then a1.(componentScope := Given(r.scope)) else a1;
      var a3 := if AskParentModule(a2) then a2.(parentModule := Given(ModuleFilter(modules, r.parentModulePick))) else a2;
      var a4 := if AskParentPage(a3) then a3.(parentPage := Given(PageFilter(pages, r.parentPagePick))) else a3;
      Some(a4)
  }

  // ---------------------------------------------------------------------
  // Dispatch.

  datatype Action =
    | MakePage(name: string, modulePath: string, appType: string)
    | ComponentUndefined  // createComponent is not defined: a ReferenceError
    | ToTheEnd            // any other mode: 'to the end' is logged

  /** `modulePath = ''` in the destructuring: a skipped question or an
      undefined filter result both become ''. */
  function ModulePathOrDefault(s: Slot<Option<string>>): (p: string)
    ensures s.Given? && s.v.Some? ==> p == s.v.value
    ensures s.Unasked? || s.v.None? ==> p == ""
  {
    match s
    case Given(Some(p)) => p
    case _ => ""
  }

  /** The .then handler: a page request goes to createPage, a component
      request fails, anything else ends the run. */
  function Dispatch(a: Answers): (act: Action)
    ensures a.mode == "page" <==> act.MakePage?
    ensures act.MakePage? ==> act == MakePage(a.name, ModulePathOrDefault(a.modulePath), a.appType)
    ensures act == ComponentUndefined <==> a.mode == "component"
    ensures act == ToTheEnd <==> a.mode !in Modes
  {
    if a.mode == "page" then MakePage(a.name, ModulePathOrDefault(a.modulePath), a.appType)
    else if a.mode == "component" then ComponentUndefined
    else ToTheEnd
  }

  /** A page request that comes out of the questionnaire carries an accepted
      name and a module path that is '' or one of the module index's values,
      whenever the module was picked from the offered items. */
  lemma PageRequestIsSound(modules: JsObject, pages: JsObject, r: Responses)
    requires WellFormed(modules)
    requires r.mode == "page" && r.modulePick in ModulePathChoices(modules)
    requires Resolve(modules, pages, r).Some?
    ensures var act := Dispatch(Resolve(modules, pages, r).value);
      && act.MakePage?
      && Validate(act.name) == Accept
      && act.appType == r.appType
      && (act.modulePath == "" || (r.modulePick in modules.vals && act.modulePath == modules.vals[r.modulePick]
                                   && act.modulePath in Values(modules)))
  {
    PickedModuleIsListed(modules, r.modulePick);
    var name :| FirstAccepted(r.nameAttempts) == Some(name);
  }
}
