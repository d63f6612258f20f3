# Allusion locations and thumbnails — a Dafny model

This project models three parts of the Allusion image organiser's renderer:

- **The location store.** This is the list of watched directories, called locations. It also holds the start-up reconciliation that runs in `init`. For each location, reconciliation:
  - diffs the paths found on disk against the location's catalog records;
  - pairs each missing record with the first created file of equal width, height and size;
  - saves each matched record again with only its path fields replaced;
  - inserts the created files that no record matched.

  The store also builds new records (`pathToIFile`) and has the operations `get`, `create`, `setDefaultLocation`, `changeLocationPath`, `delete` and `initializeLocation`.
- **Thumbnail generation.** This covers:
  - the three-way decision of `ensureThumbnail`: already set, already on disk, or posted to the worker;
  - the worker's FIFO of requests;
  - the success and error handlers;
  - the suffix-filtered move loop of `moveThumbnailDir`.
- **The locations panel.** This covers:
  - the check that refuses a location nested in, or containing, an existing one;
  - the context menu's enable rules;
  - the mapping of a directory tree to tree nodes;
  - expanding and collapsing nodes;
  - the panel's dialog state.

## Modules

- `Collections`: `Option`, plus `FirstIndex`, `Find` and `Filter`. These have the semantics of the JavaScript array methods `findIndex`, `find` and `filter`.
- `Strings`: `IndexOf`, `Includes`, `ReplaceFirst` and `EndsWith` on `seq<char>`. An empty pattern occurs at index 0, as in JavaScript. `ReplaceFirst` is JavaScript's `replace` with a string pattern and a replacement without `$`: only the first occurrence is replaced. The program replaces only with the empty string (LocationStore.tsx:352). Replacement patterns such as `$&` are not modelled, so `ReplaceFirst` requires that its replacement has no `$`.
- `Catalog`:
  - the `Location` and `FileRecord` entities;
  - the backend's save-by-identifier (`SaveFile`, `SaveAll`);
  - the search by location (`LocationFiles`).

  The catalog is a sequence of records. Its order stands for the order in which the backend returns search results.
- `Reconciliation`: the pure diff of one location (`Reconcile`), its effect on the catalog (`SyncOne`), and the loop over all locations (`SyncAll`). `SyncAll` is the specification of `LocationStore.Init`.
- `LocationStore`: the class holding `locationList` and the catalog, with one method per store operation.
- `ThumbnailGeneration`:
  - the classes `ClientFile` and `ThumbnailWorker`;
  - the `ensureThumbnail` method and the two handlers;
  - the move loop.
- `LocationsForm`: the validator, the menu rule and the tree mapping as functions. The tree and the dialog state are classes.

## Foreign inputs

Foreign inputs are parameters of the model:

- **Reconciliation.** The metadata probe (`getMetaData`), the identifier generator (`generateId`, taken as one identifier per path) and the clock (`new Date()`) form `Reconciliation.Env`.
- **Disk scans.** The result of a location's scan (`loc.init()`) is a `ScanResult`, and a broken location is `Broken`.
- **Thumbnails.** `getThumbnailPath` and `path.join` are function parameters. `fse.pathExists` is a set of existing paths. `fse.readdir` is the given listing.
- **The panel.** `Path.basename` is a function parameter. The location returned by `addDirectory` is a parameter.

An unset thumbnail path is the empty string, because the program tests `thumbnailPath` for falsiness.

`generateId` yields a new identifier on every call. The model states this as a hypothesis, `Reconciliation.FreshIds`: the scanned paths get pairwise distinct identifiers that are not yet in the catalog. Under that hypothesis, the store's invariant `LocationStore.LocationStore.Valid` is proved to be kept by every operation. The invariant is that identifiers in the catalog are unique. They are the backend's primary key.

## Behaviour of the code worth knowing

- **A matched created file stays a candidate.** The `find` at LocationStore.tsx:101-105 searches all created files for every missing record. Several missing records of the same shape are therefore all renamed to the same new path, and that created file is then not inserted. `Reconciliation.SameShapeSameMatch` states this.
- **Location containment is a substring test.** The comments at LocationsForm.tsx:338 and :348 speak of sub-directories and parent directories. The checks at :339 and :349 test string containment instead. A chosen "/photos2" is refused when "/photos" is watched (`LocationsForm.PrefixOfExistingRejected`). The chosen path is first tested for containing an existing path, then the other way round.
- **`ensureThumbnail` does not de-duplicate.** The comment at ThumbnailGeneration.tsx:30 says it generates a thumbnail "if not yet exists". A request still in the queue does not count, so two calls before a response post two identical requests (`ThumbnailGeneration.EnsureThumbnailTwice`).
- **`moveThumbnailDir` ignores its existence checks.** It awaits `pathExists` on both directories (ThumbnailGeneration.tsx:78-79) and ignores the results.
- **`closeLocationRemover` initializes the configuration dialog's location.** The comment at LocationsForm.tsx:316 speaks of a newly added location. The code initializes the location of the configuration dialog (:317-318), not the removed one.

## Model

| member | source | states |
|---|---|---|
| Collections.FirstIndex | src/renderer/frontend/stores/LocationStore.tsx:102-104 | the index returned is the first element satisfying the predicate; None exactly when no element does |
| Collections.Filter | src/renderer/frontend/stores/LocationStore.tsx:91-93 | the result keeps exactly the elements satisfying the predicate and is no longer than the input |
| Strings.IncludesIff | src/renderer/frontend/containers/Outliner/LocationsForm.tsx:339 | `includes` holds exactly when the pattern occurs at some index |
| Strings.ReplaceFirst | src/renderer/frontend/stores/LocationStore.tsx:352 | when the pattern does not occur the string is unchanged; otherwise the first occurrence, at the least index where the pattern occurs, is replaced and the rest is kept; the replacement may not contain `$` |
| Strings.ReplaceFirstPrefix | src/renderer/frontend/stores/LocationStore.tsx:352 | removing a prefix leaves the rest of the string |
| Catalog.SaveFile | src/renderer/frontend/stores/LocationStore.tsx:121-125 | each record with the saved identifier is replaced by the saved record, and every other record is kept in place |
| Catalog.LastSave | src/renderer/frontend/stores/LocationStore.tsx:117-127 | the save that decides a record comes from the batch and carries its identifier; there is none exactly when no save carries it |
| Catalog.SaveAll | src/renderer/frontend/stores/LocationStore.tsx:117-127 | a batch of saves keeps the catalog's length; each record becomes the last save with its identifier, or stays as it was |
| Catalog.LocationFiles | src/renderer/frontend/stores/LocationStore.tsx:343-346 | the search returns exactly the catalog records with that location id |
| Collections.FilterDistinctKeys | src/renderer/frontend/stores/LocationStore.tsx:91-93 | keys that are pairwise distinct along a sequence stay distinct along any filtering of it |
| Catalog.FilterUniqueIds | src/renderer/frontend/stores/LocationStore.tsx:295-296 | selecting records keeps identifiers unique |
| Catalog.AppendUniqueIds | src/renderer/frontend/stores/LocationStore.tsx:132 | appending records with unique, new ids keeps ids unique, and the ids are those of both parts |
| Catalog.SaveAllUniqueIds | src/renderer/frontend/stores/LocationStore.tsx:117-127 | saves by id keep ids unique and keep the set of ids |
| Reconciliation.PathToIFileSpec | src/renderer/frontend/stores/LocationStore.tsx:349-360 | a new record has the path as absolute path, the location's id and tags to add, the generator's id for the path, the probed size, and as relative path the path with the first occurrence of the location path removed |
| Reconciliation.RelativePathUnderRoot | src/renderer/frontend/stores/LocationStore.tsx:352 | for a file under the location root, location path + relative path is the absolute path |
| Reconciliation.Retarget | src/renderer/frontend/stores/LocationStore.tsx:121-125 | a renamed record takes both path fields from the match and keeps every other field of the missing record |
| Reconciliation.CreatedFiles | src/renderer/frontend/stores/LocationStore.tsx:94 | one new record per created path |
| Reconciliation.Matches | src/renderer/frontend/stores/LocationStore.tsx:101-105 | one match entry per missing record |
| Reconciliation.Renames | src/renderer/frontend/stores/LocationStore.tsx:117-127 | every saved record is a retargeted missing record, and every matched missing record is saved |
| Reconciliation.UnmatchedFrom | src/renderer/frontend/stores/LocationStore.tsx:131 | exactly the created files that no match entry points at are kept |
| Reconciliation.DiffPartition | src/renderer/frontend/stores/LocationStore.tsx:91-97 | a disk path is created exactly when no record of the location has it; a record is missing exactly when its path is not on disk; each created file is built from its created path |
| Reconciliation.MatchesFirstFit | src/renderer/frontend/stores/LocationStore.tsx:101-105 | a defined match is the first created file of equal width, height and size; an undefined one means there is no such file |
| Reconciliation.SameShapeSameMatch | src/renderer/frontend/stores/LocationStore.tsx:101-105 | missing records of equal shape get the same match and the same new path, because a matched file stays a candidate |
| Reconciliation.NewFilesExact | src/renderer/frontend/stores/LocationStore.tsx:131-132 | the inserted files are exactly the created files that no missing record matched |
| Reconciliation.SameIdSameRecord | src/renderer/frontend/stores/LocationStore.tsx:121-125 | with unique identifiers, saving by identifier targets exactly one record |
| Reconciliation.SyncOneCatalog | src/renderer/frontend/stores/LocationStore.tsx:85-147 | reconciling a reachable location keeps every record at its position, rewrites exactly its matched missing records, appends the unmatched created files, and reports new files exactly when some were inserted |
| Reconciliation.SyncOneKeeps | src/renderer/frontend/stores/LocationStore.tsx:117-143 | only path fields change; records of other locations, records still on disk and unmatched missing records are unchanged; nothing is deleted |
| Reconciliation.BrokenLocationSkipped | src/renderer/frontend/stores/LocationStore.tsx:67-83 | a location found broken after its scan changes nothing and reports no new files |
| Reconciliation.SyncAllKeepsIds | src/renderer/frontend/stores/LocationStore.tsx:53-148 | the start-up loop never removes a record and never changes an identifier |
| Reconciliation.CreatedFilesUniqueIds | src/renderer/frontend/stores/LocationStore.tsx:349-360 | records built for paths with fresh ids have unique ids, none of them taken, all from those paths |
| Reconciliation.UnmatchedFromUniqueIds | src/renderer/frontend/stores/LocationStore.tsx:131 | the unmatched created files keep unique ids |
| Reconciliation.CreatedPathsFresh | src/renderer/frontend/stores/LocationStore.tsx:91-94 | the created paths of a scan with fresh ids have fresh ids |
| Reconciliation.NewFilesFresh | src/renderer/frontend/stores/LocationStore.tsx:91-132 | the inserted files have unique ids, none in use before, all given to scanned paths |
| Reconciliation.SyncOneUniqueIds | src/renderer/frontend/stores/LocationStore.tsx:85-147 | with fresh ids for its scanned paths, reconciling one location keeps catalog ids unique and adds only ids of scanned paths |
| Reconciliation.FreshIdsSplit | src/renderer/frontend/stores/LocationStore.tsx:53 | fresh ids for two scans in a row are fresh for the first, and fresh for the second once the first's are taken |
| Reconciliation.SyncAllUniqueIds | src/renderer/frontend/stores/LocationStore.tsx:53-148 | with fresh ids for every scanned path, the start-up loop keeps catalog ids unique and adds only ids of scanned paths |
| LocationStore.RemoveFirst | src/renderer/frontend/stores/LocationStore.tsx:302 | `remove` drops the first occurrence of the location and leaves the list unchanged when it is absent |
| LocationStore.RemoveFirstMultiset | src/renderer/frontend/stores/LocationStore.tsx:302 | exactly one copy of the location leaves the list |
| LocationStore.DeleteLocationFiles | src/renderer/frontend/stores/LocationStore.tsx:295-296 | no remaining record belongs to the location; with unique ids every record of another location remains and ids stay unique |
| LocationStore.PathRewrites | src/renderer/frontend/stores/LocationStore.tsx:201-208 | one rewritten record per file of the location |
| LocationStore.PathRewriteEffect | src/renderer/frontend/stores/LocationStore.tsx:198-208 | the location's files get the new root joined with their relative path as absolute path; other records are unchanged |
| LocationStore.LocationStore.Get | src/renderer/frontend/stores/LocationStore.tsx:175-177 | the first location with the identifier, or None exactly when there is none |
| LocationStore.LocationStore.Init | src/renderer/frontend/stores/LocationStore.tsx:40-148 | the list becomes the backend's; with auto-load the catalog and the new-files flag are those of reconciling every location in order; without it nothing else changes; with fresh ids for every scanned path the catalog stays valid |
| LocationStore.LocationStore.SetDefaultLocation | src/renderer/frontend/stores/LocationStore.tsx:183-196 | on first launch the default location is appended; otherwise its path is changed in place; the default location's path is then the directory |
| LocationStore.LocationStore.ChangeLocationPath | src/renderer/frontend/stores/LocationStore.tsx:198-215 | every file of the location gets its absolute path rebuilt from the new root; no other record changes; the catalog stays valid |
| LocationStore.LocationStore.Create | src/renderer/frontend/stores/LocationStore.tsx:217-222 | exactly one new, uninitialized location with no tags is appended and returned |
| LocationStore.LocationStore.Delete | src/renderer/frontend/stores/LocationStore.tsx:292-304 | the location's files are deleted, then exactly one copy of the location leaves the list; the catalog stays valid |
| LocationStore.LocationStore.InitializeLocation | src/renderer/frontend/stores/LocationStore.tsx:225-290 | cancelled: the location and its files are deleted and nothing is created; otherwise one record per scanned path is inserted; with fresh ids for the scanned paths the catalog stays valid |
| LocationStore.InitializedFilesBelong | src/renderer/frontend/stores/LocationStore.tsx:274-286 | each imported record has its scanned path, the location's id and its tags to add |
| ThumbnailGeneration.ThumbnailWorker.PostMessage | src/renderer/frontend/ThumbnailGeneration.tsx:24-28 | a posted request joins the back of the queue |
| ThumbnailGeneration.ThumbnailWorker.Take | src/renderer/frontend/ThumbnailGeneration.tsx:24-28 | the oldest request is handled first |
| ThumbnailGeneration.EnsureThumbnail | src/renderer/frontend/ThumbnailGeneration.tsx:31-47 | a set thumbnail changes nothing; an existing thumbnail on disk is set without posting; otherwise exactly one request with the file's path and id, the directory and the type is posted, and the thumbnail stays unset |
| ThumbnailGeneration.EnsureThumbnailTwice | src/renderer/frontend/ThumbnailGeneration.tsx:31-47 | two calls before a response post two identical requests |
| ThumbnailGeneration.FindFile | src/renderer/frontend/ThumbnailGeneration.tsx:56 | the file found has the identifier; None exactly when no file has it |
| ThumbnailGeneration.OnMessage | src/renderer/frontend/ThumbnailGeneration.tsx:54-60 | the reported path is set on the file with that id only; an unknown id changes nothing |
| ThumbnailGeneration.OnError | src/renderer/frontend/ThumbnailGeneration.tsx:62-70 | the file with that id falls back to its own path; every other file is unchanged |
| ThumbnailGeneration.HandleNext | src/renderer/frontend/ThumbnailGeneration.tsx:24-28 | the oldest request is answered, and its response reaches only the file it names |
| ThumbnailGeneration.ThumbnailNames | src/renderer/frontend/ThumbnailGeneration.tsx:85 | exactly the entries whose name ends with the thumbnail type |
| ThumbnailGeneration.MoveThumbnailDir | src/renderer/frontend/ThumbnailGeneration.tsx:83-90 | exactly the thumbnail entries are moved, in listing order, each to the same name in the target directory |
| LocationsForm.ChooseWatchedDir | src/renderer/frontend/containers/Outliner/LocationsForm.tsx:333-360 | a dismissed dialog does nothing; a path containing an existing location's path is refused as a sub-folder; failing that, a path contained in one is refused as a parent folder; otherwise it is added |
| LocationsForm.PrefixOfExistingRejected | src/renderer/frontend/containers/Outliner/LocationsForm.tsx:339-346 | a path that starts with an existing location's path, including an equal one, is refused as a sub-folder |
| LocationsForm.PrefixOfNewRejected | src/renderer/frontend/containers/Outliner/LocationsForm.tsx:339-356 | a path that is a prefix of an existing location's path is never added |
| LocationsForm.ContextMenuState | src/renderer/frontend/containers/Outliner/LocationsForm.tsx:40-66 | "Configure" is disabled exactly when no location has the path; "Delete" exactly when none has it or the first that has it is the import location |
| LocationsForm.DirItemAsTreeNode | src/renderer/frontend/containers/Outliner/LocationsForm.tsx:201-211 | id and data are the full path, the label is the name and there is a caret; an empty directory gets just the placeholder; otherwise the children map one to one |
| LocationsForm.TreeNodeRoundTrip | src/renderer/frontend/containers/Outliner/LocationsForm.tsx:201-211 | reading the nodes back, without the placeholders, gives the original directory tree, so the shape and order are kept |
| LocationsForm.SetExpanded | src/renderer/frontend/containers/Outliner/LocationsForm.tsx:261-269 | the node list keeps its length |
| LocationsForm.SetExpandedTargetsOnly | src/renderer/frontend/containers/Outliner/LocationsForm.tsx:261-269 | expanding or collapsing changes the flag of the target node only; every node keeps its place, id, label and data |
| LocationsForm.LocationsTree.constructor | src/renderer/frontend/containers/Outliner/LocationsForm.tsx:215-225 | one root node per location, with its id, base name and path |
| LocationsForm.LocationsTree.SetLocationChildren | src/renderer/frontend/containers/Outliner/LocationsForm.tsx:232-234 | for an index in range (it comes from the list that built the nodes), that location's root node gets the mapped directories as children and every other node is unchanged |
| LocationsForm.LocationsTree.HandleNodeExpand | src/renderer/frontend/containers/Outliner/LocationsForm.tsx:261-264 | the target node is expanded |
| LocationsForm.LocationsTree.HandleNodeCollapse | src/renderer/frontend/containers/Outliner/LocationsForm.tsx:266-269 | the target node is collapsed |
| LocationsForm.LocationsFormState.HandleChooseWatchedDir | src/renderer/frontend/containers/Outliner/LocationsForm.tsx:326-363 | the configuration dialog opens on the added location only when the choice is accepted |
| LocationsForm.LocationsFormState.CloseConfig | src/renderer/frontend/containers/Outliner/LocationsForm.tsx:305-311 | the open location is initialized only if it is not initialized yet, and the dialog is always cleared |
| LocationsForm.LocationsFormState.CloseLocationRemover | src/renderer/frontend/containers/Outliner/LocationsForm.tsx:314-320 | the removal alert is cleared, and the configuration dialog's location is initialized if it is not initialized yet |

## Left out

- Toasts, `console.log`, the Electron `remote`, `shell` and dialog calls, React hooks and `refetch`: these are presentation and side channels.
- `promiseAllLimit` and its bounded concurrency: `promiseAllLimit` lives in a utilities module that is not part of this model. A cancel that arrives while metadata is being read is not modelled. `LocationStore.LocationStore.InitializeLocation` only covers a cancel during the scan, which creates nothing.
- Every backend call and every `fs-extra` call is assumed to succeed. In the program a rejected promise ends the function at that point, and the model does not capture that:
  - `getMetaData`, `searchFiles`, `saveFile` or `createFilesFromPath` rejecting (LocationStore.tsx:87, :94, :121, :132) would stop `init` before the later locations.
  - `deleteFiles` or `removeLocation` rejecting (:296, :299) would leave the location in `locationList`. `LocationStore.LocationStore.Delete` always removes it.
  - `createLocation` rejecting (:188, :219) would push nothing in `create` and `setDefaultLocation`.
  - `fse.move` rejecting (ThumbnailGeneration.tsx:88) would end the move loop early. `ThumbnailGeneration.MoveThumbnailDir` has every thumbnail entry moved.
- The concurrent `Promise.all` of the saves is a fold in array order.
- Reconciliation.PathToIFileSpec: the id of a new record is `newId(path)`. That ids are fresh is not a property of the model; it is the hypothesis `FreshIds` of the uniqueness lemmas.
- LocationsForm.LocationsTree.SetLocationChildren: requires an index in range. An index out of range would make the program's assignment throw inside the state updater and unmount the tree, and that is not modelled.
- `createFilesFromPath` is modelled as appending the given records. The backend's own checks and its identifier ordering of search results are not part of this model.
- The backend's location table (`createLocation`, `saveLocation`, `removeLocation`), `location.dispose()` and `RendererMessenger.setDownloadPath`.
- `removeDirectory` and `addDirectory`: these belong to a version of the store that is not part of this model. The location `addDirectory` returns is an input.
- The worker's image processing and `terminate`. The worker's answer to a request is an input of `HandleNext`.
- `fse.move`'s effect on the disk. `MoveThumbnailDir` returns the moves it issues, in order.
- `ThumbnailGeneration`: the thumbnail type is a parameter, not the configured constant.
- Node click and search actions (`handleNodeClick`, `addToSearch`, `replaceSearch`), the context menu's own actions, `toggleLocations` and `handleRefresh`: these only forward to the UI store.
- Object identity in the tree. Blueprint passes the node object itself to the handlers; the model addresses nodes by their index path, and the tree is a value.
- The icons, `rightIcon`, `className` and tooltip of the location nodes, and the `isBroken` flag.
- The remaining fields of a file record (`name`, `extension`, `isBroken` and so on), and the updates of `isInitialized`.
- `DEFAULT_LOCATION_ID` is defined in `entities/Location`, which is not part of this model. Its value here is `"default-location"`.
