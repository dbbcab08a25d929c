# miniApp-cli page scaffolder, modelled in Dafny

This project models the core of the miniApp-cli command: the part that scaffolds a new page for a mini-program.
- It reads `app.json` and indexes its pages and sub-packages.
- It asks the questionnaire: app type, mode, name, owning module, and the component scope and parent.
- For a page, it copies the page template into `pages/<name>/` of the chosen bundle and records
  `pages/<name>/<name>` in `app.json`.

The project has six modules, one file each:

- `wrappers.dfy` (`Wrappers`): `Option` and a `Distinct` predicate on sequences.
- `paths.dfy` (`Paths`): the string helpers of `util.js`.
  - `split('/')` and `join('/')`.
  - `getPathSubSting`: the short key of a path, as a `while` loop proved equal to a reference function.
  - `path.extname` of a bare file name.
  - `path.join` with Node's POSIX normalisation: empty and "." segments are dropped, ".." is resolved, and a leading or trailing '/' is kept.
- `disk.dfy` (`Disk`): the file system `util.js` works on.
  - An in-memory tree maps each path to a directory or a file.
  - `fs.mkdir(…, {recursive: true})`, `fs.readdir` and `fs.copyFile(…, COPYFILE_EXCL)` are pure functions on that tree.
  - The `FileSystem` class holds the tree. Its methods `CheckFileIsExists`, `CreateDir`, `ReadDir`, `CopyFile` and `CopyFilesArr` update it in place.
  - `CopyFilesArr` is a loop proved against the batch function `CopyAll`.
- `manifest.dfy` (`Manifest`): the process-wide `__Data__` record as the class `AppData`.
  - It holds the parsed manifest, the module index (module key to root) and the page index (page key to owning root).
  - `parseAppJson` is a set of `for` loops that fill the indices.
  - `writePageAppJson` appends the page to the main bundle or to a sub-package.
  - A JavaScript object is modelled as an insertion-ordered map. That matters because the sub-package is found by its position in `Object.values(appModuleList)`.
- `questionnaire.dfy` (`Questionnaire`): the name validation with the two character classes `regEn` and `regCn`.
  - It also models the `when` guards, the `filter`s and `source` lists of the pickers, the whole prompt as a function of the user's responses, and the dispatch in the `.then` handler.
- `scaffold.dfy` (`Scaffold`): `createPage` as a method over a `FileSystem` and an `AppData`.
  - It has every exit: missing template, existing page, a crash in a file-system callback, a write that never settles, is rejected or succeeds.
  - `Run` models the exported entry point.

The name check follows the code: only the empty string is refused as empty. A name of blanks is not trimmed. It passes the check unless it contains a forbidden character.

When two sub-packages share a module key (the last non-empty segment of their roots), the module index keeps only the later root. Its values then no longer line up with `subPackages`, and the position `indexOf` finds can name the wrong sub-package.
- `Manifest.PositionalLookupMisplaces` gives a concrete manifest where this happens: a page goes into the wrong sub-package, and one root can no longer be found at all.
- `Manifest.PositionalLookupCorrect` shows the lookup is right when module keys are distinct.

## Model

| member | source | states |
|---|---|---|
| Paths.Split | util.js:61 | `split('/')` yields at least one segment, and no segment contains '/' |
| Paths.JoinSplit | util.js:61 | joining the segments of a path with '/' gives the path back, so splitting loses nothing |
| Paths.SplitJoin | util.js:61 | segments without '/' joined with '/' split back into the same segments |
| Paths.LastKey | util.js:62-67 | a non-empty key is one of segments 1 and up; an empty key means every segment after segment 0 is empty |
| Paths.GetPathSubString | util.js:60-69 | the downward loop from `arr.length` returns the reference key `PathKey(path)` of its input |
| Paths.LastKeyAt | util.js:62-67 | the key is the right-most non-empty segment after segment 0 |
| Paths.PathKeyHasNoSlash | util.js:60-69 | a key never contains '/' |
| Paths.NoSlashKeyIsEmpty | util.js:62 | a path without '/' has key "", because segment 0 is never examined |
| Paths.PageKeyExample | util.js:60-69 | "pages/index/index" has key "index" |
| Paths.PagePathKey | lib/create-program-fs.js:42 | the manifest entry pages/n/n that createPage records has key n, for any n without '/' |
| Paths.TwoSegmentKey | util.js:60-69 | a root "a/b" with b non-empty has module key b |
| Paths.ExtName | util.js:52 | the extension is a suffix of the file name |
| Paths.ExtNameShape | util.js:52 | the extension is "" or a '.' followed by no other '.'; it is "" exactly for names without '.', names whose only '.' leads, and ".." |
| Paths.ExtNameOf | util.js:52 | a stem without '.' followed by an extension has that extension |
| Paths.ExtNamePreserved | util.js:52-53 | renaming a file to name + its extension keeps its extension |
| Paths.NormalSegments | lib/create-program-fs.js:84 | normalising drops every empty and "." segment; an absolute path keeps no ".." |
| Paths.Normalize | lib/create-program-fs.js:84 | the normalised path is never empty, and it is absolute exactly when the input is |
| Paths.JoinPath | lib/create-program-fs.js:84 | `path.join` never gives "" ("." when every part is empty), and the result is absolute exactly when the non-empty parts joined with '/' start with '/' |
| Paths.JoinPathPlain | lib/create-program-fs.js:91 | when the joined parts are plain names and empty segments, starting and ending with a plain name, `path.join` is those names with single '/' between them |
| Disk.MkdirP | util.js:12-21 | recursive mkdir succeeds exactly when no file sits on the path or above it. On success the target is a directory, every old entry is kept, only ancestor directories are added, and the tree stays well formed |
| Disk.CopyOne | util.js:36-45 | an exclusive copy succeeds exactly when the source is a file, the destination does not exist and its directory does. On success exactly the destination is added with the source's bytes, and the rest is unchanged |
| Disk.DestSameIff | util.js:52-53 | two template files get the same destination exactly when their extensions agree |
| Disk.CopyAll | util.js:48-57 | a batch never reports more completed copies than files |
| Disk.CopyAllKeeps | util.js:48-57 | a batch never removes or overwrites an entry |
| Disk.CopyAllAddsOnlyDestinations | util.js:48-57 | every entry a batch adds is the destination of a completed copy |
| Disk.CopyAllKeepsTree | util.js:48-57 | a batch keeps the tree well formed |
| Disk.CopyAllSucceeds | util.js:48-57 | with existing source files, free destinations in existing directories, and distinct extensions, every file is copied and each destination holds its source's bytes |
| Disk.CopyAllStops | util.js:51-54 | once a copy has failed, no later file is attempted |
| Disk.DuplicateExtensionStops | util.js:52-53 | a second file with an extension already copied stops the batch at that file, with every earlier copy kept |
| Disk.RenamedDestinations | util.js:52-53 | template files stem + x are written to cur + x, in the same order |
| Disk.Children | util.js:24-33 | readdir lists exactly the names n that are non-empty, have no '/', and for which dir/n exists |
| Disk.SrcInOrigin | util.js:53 | the source `originPath/arr[i]` of a plain file name lies directly inside originPath |
| Disk.DestNextToCur | util.js:52-53 | the destination `curPath + extName` starts with curPath and adds no '/' for a plain file name, so it lies in curPath's directory; it is curPath itself for a file without an extension |
| Disk.Destinations | util.js:50-54 | one destination per template file, in order; they are pairwise distinct exactly when the files' extensions are |
| Disk.FileSystem.constructor | util.js:5-70 | the file system starts with the given tree |
| Disk.FileSystem.CheckFileIsExists | util.js:7-9 | true exactly when the path exists |
| Disk.FileSystem.CreateDir | util.js:12-21 | succeeds exactly when recursive mkdir does; the tree becomes the mkdir result, or stays unchanged on failure |
| Disk.FileSystem.ReadDir | util.js:24-33 | succeeds exactly on an existing directory and lists each of its children once, in some order; lists nothing on failure |
| Disk.FileSystem.CopyFile | util.js:36-45 | succeeds exactly when the exclusive copy can happen; the tree becomes the copy result, or stays unchanged on failure |
| Disk.FileSystem.CopyFilesArr | util.js:48-57 | the in-order loop leaves the tree and the count of completed copies given by the batch function CopyAll |
| Manifest.PagePath | lib/create-program-fs.js:42 | the entry `pages/name/name` recorded for a non-empty name without '/' has page key name |
| Manifest.Put | lib/create-program-fs.js:72 | an assignment `o[k] = v` stores v under k, leaves every other key and value alone, and keeps the object well formed. Key order follows insertion: the old keys keep their positions, an existing key is not moved, and a new key is appended at the end |
| Manifest.Values | lib/create-program-fs.js:45 | `Object.values` lists the value of each key, in key order |
| Manifest.IndexOf | lib/create-program-fs.js:45 | `indexOf` is -1 exactly when the value is absent; otherwise it is the first position holding it |
| Manifest.AssignAll | lib/create-program-fs.js:72-78 | a run of assignments keeps the object well formed |
| Manifest.AssignAllLastWins | lib/create-program-fs.js:72-78 | a key ends up with the value of the last assignment to it |
| Manifest.AssignAllConcat | lib/create-program-fs.js:72-78 | two passes of assignments one after the other are one pass |
| Manifest.AssignAllUntouched | lib/create-program-fs.js:72-78 | a key no assignment touches is present afterwards exactly when it was before, with its old value |
| Manifest.AssignAllUniform | lib/create-program-fs.js:72-78 | when every assignment to k carries the same value, k ends with that value |
| Manifest.AssignAllDistinct | lib/create-program-fs.js:76 | assignments with pairwise distinct keys, made to an empty object, give exactly those keys in assignment order, each holding its assigned value |
| Manifest.AssignAllSize | lib/create-program-fs.js:45 | a run of assignments adds at most one key per assignment |
| Manifest.AppendPage | lib/create-program-fs.js:40-51 | with modulePath "", pages/name/name is appended to the main bundle and nothing else changes. Otherwise the path is missing exactly when it is not among the index's values; a TypeError happens exactly when the found position lies past the sub-packages; else that one sub-package gets the page |
| Manifest.AppData.constructor | lib/create-program-fs.js:15-24 | the record starts with an empty manifest and empty indices, and nothing is written |
| Manifest.AppData.ParseAppJson | lib/create-program-fs.js:66-79 | succeeds exactly when app.json loaded, and otherwise changes nothing. It stores the manifest; the module index is the module assignments, the page index is the main-bundle then sub-package page assignments, in order |
| Manifest.AppData.IndexManifest | lib/create-program-fs.js:72-78 | the two forEach passes give exactly the module and page assignments of the manifest |
| Manifest.AppData.IndexSubPackages | lib/create-program-fs.js:75-78 | the loop over sub-packages gives each root's module assignment and each sub-package's page assignments, in order |
| Manifest.AppData.IndexPages | lib/create-program-fs.js:72 | the loop over a page list assigns each page's key to the owner, in order |
| Manifest.AppData.IndexSubPackage | lib/create-program-fs.js:76-77 | one sub-package puts its root under its key, then assigns its pages to that root |
| Manifest.AppData.WritePageAppJson | lib/create-program-fs.js:36-63 | the indices never change. An appended manifest is stored; the promise resolves and persists it if the write succeeds, and rejects otherwise. A missing module leaves everything unchanged and never settles; a TypeError rejects |
| Manifest.MainPageOwner | lib/create-program-fs.js:72 | a main-bundle page whose key no sub-package page shares is owned by "" |
| Manifest.SubPageOwner | lib/create-program-fs.js:77 | a sub-package page whose key no page of another sub-package shares is owned by its root, whatever the main bundle holds |
| Manifest.ModuleOwner | lib/create-program-fs.js:76 | a sub-package whose key no later sub-package shares is indexed with its root |
| Manifest.LaterPageOverwrites | lib/create-program-fs.js:72-77 | a main page and a sub-package page with the same name leave the name owned by the sub-package |
| Manifest.PositionalLookupCorrect | lib/create-program-fs.js:45-50 | with distinct module keys, `Object.values` of the module index is the roots in manifest order, and a known root gets the page in the first sub-package with that root |
| Manifest.CollidingValues | lib/create-program-fs.js:45 | three roots a/x, b/x and c/y give only the two values b/x and c/y, with x keeping its first position |
| Manifest.PositionalLookupMisplaces | lib/create-program-fs.js:45-50 | in that manifest, a page for c/y is added to b/x's sub-package, and a page for a/x is never placed |
| Manifest.ListedModuleIsFound | lib/create-program-fs.js:45-50 | any non-empty value of an index built from the manifest is found at a position that exists, so the append neither hangs nor throws |
| Questionnaire.MatchesClass | lib/create-program-fs.js:154 | `regex.test` on a one-class regex is true exactly when some character is in the class |
| Questionnaire.Validate | lib/create-program-fs.js:144-160 | EmptyName exactly for "" (no trimming); BadName exactly for a non-empty name with a character of regEn or regCn; Accept exactly otherwise |
| Questionnaire.AcceptedNameIsSegment | lib/create-program-fs.js:11 | an accepted name is non-empty and has neither '/' nor '.' |
| Questionnaire.FirstAccepted | lib/create-program-fs.js:140-161 | the re-prompt gives the first accepted attempt, or none exactly when no attempt is accepted |
| Questionnaire.AskModulePath | lib/create-program-fs.js:178-180 | modulePath is asked exactly for the listed mode that does not get the scope question |
| Questionnaire.AskComponentScope | lib/create-program-fs.js:192-194 | componentScope is asked exactly for a listed mode other than "page" |
| Questionnaire.AskParentModule | lib/create-program-fs.js:212-214 | parentModule is asked only after the scope question, and never together with parentPage |
| Questionnaire.AskParentPage | lib/create-program-fs.js:232-234 | parentPage is asked only after the scope question, with a scope other than "module" |
| Questionnaire.ModuleFilter | lib/create-program-fs.js:172-177 | the modulePath filter, and the identical parentModule filter: "none" gives ""; another item gives the root indexed for it, and undefined exactly when the index does not hold it |
| Questionnaire.PageFilter | lib/create-program-fs.js:226-231 | "none" gives '' and nothing else does; another item gives that page with a root that is defined exactly when the page index holds it, and then is the indexed root |
| Questionnaire.ModulePathChoices | lib/create-program-fs.js:169-171 | the picker offers "none" first and then one item per module key; for a well-formed index, an item is offered exactly when it is "none" or a module key, each once unless a module key is "none" |
| Questionnaire.ParentModuleChoices | lib/create-program-fs.js:203-205 | for a well-formed index, the picker offers exactly the module keys, each once |
| Questionnaire.ParentPageChoices | lib/create-program-fs.js:223-225 | for a well-formed index, the picker offers exactly the page keys, each once |
| Questionnaire.PickedModuleIsListed | lib/create-program-fs.js:169-177 | an item offered by the modulePath picker filters to "" or to the root indexed for it, which is one of the index's values |
| Questionnaire.PickedParentModule | lib/create-program-fs.js:203-211 | an item offered by the parentModule picker is a module key, and filters to its root, except a key spelled "none", which becomes "" |
| Questionnaire.PickedPageIsListed | lib/create-program-fs.js:223-231 | an item offered by the parentPage picker, other than "none", filters to the page with its indexed root |
| Questionnaire.Resolve | lib/create-program-fs.js:121-236 | the prompt resolves exactly when a name attempt is accepted, with that name. modulePath is asked exactly for pages and holds the filtered pick; componentScope exactly for components and holds the chosen scope; parentModule and parentPage exactly for their scope, never both, holding the filtered module pick and the filtered page pick |
| Questionnaire.ModulePathOrDefault | lib/create-program-fs.js:237 | a skipped question or an undefined filter result become "" |
| Questionnaire.Dispatch | lib/create-program-fs.js:237-247 | mode "page" creates a page from the answers; mode "component" exactly gives the failing createComponent call; any mode outside the list ends the run |
| Questionnaire.PageRequestIsSound | lib/create-program-fs.js:163-240 | a page request from the prompt carries an accepted name and a module path that is "" or one of the module index's values |
| Scaffold.TemplateRoot | lib/create-program-fs.js:84 | the template directory path is never empty; for plain names it is template/appType/page; an empty Config.template makes it absolute |
| Scaffold.PageRoot | lib/create-program-fs.js:91 | the page directory path is never empty; for plain names it is entry/pages/name in the main bundle and entry/modulePath/pages/name in a sub-package |
| Scaffold.PageRootTrailingSlash | lib/create-program-fs.js:91 | a sub-package root written with a trailing '/' gives the same page directory as without it |
| Scaffold.ChildrenAfterMkdir | lib/create-program-fs.js:101-104 | creating the page directory does not change the template listing when no new directory lies inside the template |
| Scaffold.FreshDestinations | lib/create-program-fs.js:101-107 | once the new page directory exists, every copy destination in it is free and has its directory |
| Scaffold.FreshPageCopiesAll | lib/create-program-fs.js:100-107 | with a well-formed tree, the template present and free of name clashes, and a new page directory, every template file is copied |
| Scaffold.CreatePage | lib/create-program-fs.js:82-114 | its effect is CreatePageEffect, where each exit is characterised by the file system before the call: a missing template or existing page (no change), a crash at mkdir, readdir or copy (the copies made so far stay), or the app.json step. Only then does the manifest change, per AppendPage; a ready file system always reaches that step |
| Scaffold.CreatedPageIsRecorded | lib/create-program-fs.js:98-114 | after a Created outcome, the template existed, the page directory was new and now exists, the write succeeded, and the saved app.json is exactly the manifest with the page appended |
| Scaffold.Run | lib/create-program-fs.js:116-249 | the run ends at a missing app.json, a name never accepted, or the dispatch on mode. The pages list is built from the loaded app.json, and the file system and manifest change only in a page run. A page run has the effect CreatePageEffect for the first accepted name and the module path the picker yields. With a ready file system and a pick from the offered list, it ends Created when the write succeeds and WriteRejected otherwise |

## Left out

- Console output (`Log`, `console.log`) and the exact messages are not modelled; only which exit is taken.
- `process.exit(1)` after a missing app.json is the result `AppJsonMissing`. Reading app.json (`require`) is the parameter `loaded`.
- The terminal prompt (`inquirer`) is not modelled: the user's choices and typed attempts are the parameter `Responses`. The `fuzzy` ranking is not modelled either; a picker is modelled with an empty filter text, so it offers its whole pool in order. The script also never registers the `autocomplete` prompt type with inquirer, so the picker may come up as a plain text input. The module pick could then be any typed text, and a key such as `toString` would reach a member the object inherits. ModuleFilter and PageFilter look up only the object's own keys, where `appModuleList[input]` and `appPagesList[input]` would not. Scaffold.Run's never-hangs clause and Questionnaire.PageRequestIsSound assume the pick is one of the offered choices.
- The `message` functions of the questions are display only and are not modelled.
- `fs.writeFile` and `json-format` are not modelled. The write's result is the parameter `writeOk`, and a successful write stores the manifest in `AppData.persisted`.
- An error thrown inside a file-system callback ends the process; it is modelled as the outcome `Crashed` with the stage where it happened.
- A promise that never settles is the outcome `Hung`. The `createPage` promise that the `.then` handler does not await is modelled as finishing before the run ends.
- `createComponent` is not defined in lib/create-program-fs.js, so a component request only yields `ComponentFailed`. The component template and index.js are not part of this model.
- Disk.FileSystem.ReadDir: the order of `fs.readdir` is left to the file system (any order of the children).
- Disk: tree keys are paths exactly as `path.join` and the template literals return them. A trailing '/', a leading ".." or an absolute path therefore names a different entry than the operating system would resolve, and the current directory is not modelled.
- Paths.JoinPath: Windows separators (`path.win32`) are not modelled; `path.join` is the POSIX one.
- Manifest.Put: keys are kept in insertion order; JavaScript lists integer-like keys first and treats `__proto__` specially, which the model does not.
- Manifest.AppData.ParseAppJson: a manifest without `pages` or `subPackages` (a TypeError in forEach) is not modelled; the manifest always has both lists, and every sub-package always carries its `pages` list (without it `item.pages.forEach` would throw). Manifest keys other than `pages` and `subPackages` are not modelled.
- Paths.ExtName: models `path.extname` only for bare file names, which is all `readdir` returns; names with '/' are not covered.
- Concurrency between the unawaited promises is not modelled; each step runs to completion in order.
