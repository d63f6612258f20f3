/**
 * The per-location reconciliation that the location store runs at start-up:
 * the paths found on disk are diffed against the location's catalog records,
 * missing records are paired with created files of equal width, height and
 * size (first match wins, and a created file stays a candidate after it is
 * matched), matched records are saved with new path fields, and created
 * files nobody matched are inserted. Unmatched missing records are left as
 * they are.
 */
module Reconciliation {
  import opened Collections
  import opened Strings
  import opened Catalog

  /** What the metadata probe reads from a file. */
  datatype Metadata = Metadata(width: int, height: int, size: int)

  /**
   * The program's foreign inputs: the metadata probe, the identifier
   * generator (one identifier per path; that they are fresh is the
   * hypothesis `FreshIds`) and the current time.
   */
  datatype Env = Env(probe: string -> Metadata, newId: string -> FileId, now: int)

  /** What scanning a location yields: unreachable, or the file paths found. */
  datatype ScanResult = Broken | Found(filePaths: seq<string>)

  /** `pathToIFile`: a fresh record for a file found on disk. */
  function PathToIFile(path: string, loc: Location, env: Env): FileRecord {
    var meta := env.probe(path);
    FileRecord(
      env.newId(path), loc.id, path, ReplaceFirst(path, loc.path, ""),
      loc.tagsToAdd, env.now, env.now, meta.width, meta.height, meta.size)
  }

  /**
   * A new record belongs to the location, carries its tags to add, and its
   * relative path is the absolute path with the first occurrence of the
   * location's path removed.
   */
  lemma PathToIFileSpec(path: string, loc: Location, env: Env)
    ensures var f := PathToIFile(path, loc, env);
      && f.absolutePath == path
      && f.locationId == loc.id
      && f.tags == loc.tagsToAdd
      && f.id == env.newId(path)
      && f.width == env.probe(path).width
      && f.height == env.probe(path).height
      && f.size == env.probe(path).size
      && ((forall i: nat :: !OccursAt(path, loc.path, i)) ==> f.relativePath == path)
      && (forall i: nat :: OccursAt(path, loc.path, i) && (forall j: nat :: j < i ==> !OccursAt(path, loc.path, j)) ==>
            f.relativePath == path[..i] + path[i + |loc.path|..])
  {
    var f := PathToIFile(path, loc, env);
    forall i: nat | OccursAt(path, loc.path, i) && (forall j: nat :: j < i ==> !OccursAt(path, loc.path, j))
      ensures f.relativePath == path[..i] + path[i + |loc.path|..]
    {
      var r := IndexOf(path, loc.path);
      assert r.Some?;
      assert r.value == i;
    }
  }

  /** For a file under the location's root, the relative path is the rest after the root. */
  lemma RelativePathUnderRoot(path: string, loc: Location, env: Env)
    requires |loc.path| <= |path| && path[..|loc.path|] == loc.path
    ensures PathToIFile(path, loc, env).relativePath == path[|loc.path|..]
    ensures loc.path + PathToIFile(path, loc, env).relativePath == path
  {
    ReplaceFirstPrefix(path, loc.path);
    assert path == path[..|loc.path|] + path[|loc.path|..];
  }

  /** The rename heuristic: equal width, height and byte size. */
  predicate SameShape(a: FileRecord, b: FileRecord) {
    a.width == b.width && a.height == b.height && a.size == b.size
  }

  /** `createdFiles.find(...)`: index of the first created file shaped like `missing`. */
  function FindMatch(missing: FileRecord, created: seq<FileRecord>): Option<nat> {
    FirstIndex(created, (cf: FileRecord) => SameShape(missing, cf))
  }

  /** The record saved for a rename: the missing record with the matched file's path fields. */
  function Retarget(missing: FileRecord, matched: FileRecord): (r: FileRecord)
    ensures r.absolutePath == matched.absolutePath && r.relativePath == matched.relativePath
    ensures r.(absolutePath := missing.absolutePath, relativePath := missing.relativePath) == missing
  {
    missing.(absolutePath := matched.absolutePath, relativePath := matched.relativePath)
  }

  /** Disk paths with no catalog record of that absolute path. */
  function CreatedPaths(filePaths: seq<string>, dbFiles: seq<FileRecord>): seq<string> {
    Filter(filePaths, (p: string) => Find(dbFiles, (f: FileRecord) => f.absolutePath == p).None?)
  }

  /** Catalog records whose absolute path is not among the disk paths. */
  function MissingFiles(dbFiles: seq<FileRecord>, filePaths: seq<string>): seq<FileRecord> {
    Filter(dbFiles, (f: FileRecord) => f.absolutePath !in filePaths)
  }

  /** A new record for every created path, in order. */
  function CreatedFiles(createdPaths: seq<string>, loc: Location, env: Env): (r: seq<FileRecord>)
    ensures |r| == |createdPaths|
  {
    seq(|createdPaths|, i requires 0 <= i < |createdPaths| => PathToIFile(createdPaths[i], loc, env))
  }

  /** One entry per missing record: the index of its first match among the created files. */
  function Matches(missing: seq<FileRecord>, created: seq<FileRecord>): (r: seq<Option<nat>>)
    ensures |r| == |missing|
  {
    seq(|missing|, i requires 0 <= i < |missing| => FindMatch(missing[i], created))
  }

  /** `f` is the record saved for the missing record `m`. */
  predicate RenameOf(f: FileRecord, m: FileRecord, created: seq<FileRecord>) {
    match FindMatch(m, created)
    case None => false
    case Some(j) => f == Retarget(m, created[j])
  }

  /** The records saved for renames, in the order of the missing records. */
  function Renames(missing: seq<FileRecord>, created: seq<FileRecord>): (r: seq<FileRecord>)
    ensures forall f :: f in r ==> exists m :: m in missing && RenameOf(f, m, created)
    ensures forall m :: m in missing && FindMatch(m, created).Some? ==>
      Retarget(m, created[FindMatch(m, created).value]) in r
  {
    if |missing| == 0 then []
    else
      var head := match FindMatch(missing[0], created)
        case None => []
        case Some(j) => [Retarget(missing[0], created[j])];
      var rest := Renames(missing[1..], created);
      assert forall m :: m in missing ==> m == missing[0] || m in missing[1..];
      assert forall m :: m in missing[1..] ==> m in missing;
      assert forall f :: f in head ==> RenameOf(f, missing[0], created);
      head + rest
  }

  /** Created files at index `from` or later that no entry of `matches` points at, in order. */
  function UnmatchedFrom(created: seq<FileRecord>, matches: seq<Option<nat>>, from: nat): (r: seq<FileRecord>)
    decreases |created| - from
    ensures forall j :: from <= j < |created| && Some(j) !in matches ==> created[j] in r
    ensures forall f :: f in r ==> exists j :: from <= j < |created| && Some(j) !in matches && f == created[j]
  {
    if from >= |created| then []
    else (if Some(from) in matches then [] else [created[from]]) + UnmatchedFrom(created, matches, from + 1)
  }

  /** `createdFiles.filter((cf) => !matches.includes(cf))`, with matches as indices. */
  function NewFiles(created: seq<FileRecord>, matches: seq<Option<nat>>): seq<FileRecord> {
    UnmatchedFrom(created, matches, 0)
  }

  /** Everything one reconciliation computes for a location. */
  datatype Plan = Plan(
    createdPaths: seq<string>,
    createdFiles: seq<FileRecord>,
    missingFiles: seq<FileRecord>,
    matches: seq<Option<nat>>,
    renamed: seq<FileRecord>,
    newFiles: seq<FileRecord>)

  function Reconcile(filePaths: seq<string>, dbFiles: seq<FileRecord>, loc: Location, env: Env): Plan {
    var createdPaths := CreatedPaths(filePaths, dbFiles);
    var createdFiles := CreatedFiles(createdPaths, loc, env);
    var missingFiles := MissingFiles(dbFiles, filePaths);
    var matches := Matches(missingFiles, createdFiles);
    Plan(createdPaths, createdFiles, missingFiles, matches,
         Renames(missingFiles, createdFiles), NewFiles(createdFiles, matches))
  }

  /** The catalog after one location, and whether it inserted new files. */
  datatype Sync = Sync(catalog: seq<FileRecord>, foundNew: bool)

  /** One iteration of the start-up loop: skip a broken location, else save renames and insert new files. */
  function SyncOne(cat: seq<FileRecord>, loc: Location, scan: ScanResult, env: Env): Sync {
    match scan
    case Broken => Sync(cat, false)
    case Found(filePaths) =>
      var plan := Reconcile(filePaths, LocationFiles(cat, loc.id), loc, env);
      Sync(SaveAll(cat, plan.renamed) + plan.newFiles, |plan.newFiles| > 0)
  }

  /** The whole start-up loop, location by location, in order. */
  function SyncAll(cat: seq<FileRecord>, locs: seq<Location>, scans: seq<ScanResult>, env: Env): Sync
    requires |scans| == |locs|
    decreases |locs|
  {
    if |locs| == 0 then Sync(cat, false)
    else
      var n := |locs| - 1;
      var prev := SyncAll(cat, locs[..n], scans[..n], env);
      var step := SyncOne(prev.catalog, locs[n], scans[n], env);
      Sync(step.catalog, prev.foundNew || step.foundNew)
  }

  // ---------------------------------------------------------------------
  // Properties of the diff

  /**
   * The diff partitions both sides: a disk path is created exactly when no
   * record of the location has it as absolute path, and a record is missing
   * exactly when its absolute path is not on disk.
   */
  lemma DiffPartition(filePaths: seq<string>, dbFiles: seq<FileRecord>, loc: Location, env: Env)
    ensures var plan := Reconcile(filePaths, dbFiles, loc, env);
      && (forall p :: p in plan.createdPaths <==> p in filePaths && forall f :: f in dbFiles ==> f.absolutePath != p)
      && (forall f :: f in plan.missingFiles <==> f in dbFiles && f.absolutePath !in filePaths)
      && |plan.createdFiles| == |plan.createdPaths|
      && (forall i :: 0 <= i < |plan.createdFiles| ==> plan.createdFiles[i] == PathToIFile(plan.createdPaths[i], loc, env))
  {
    var plan := Reconcile(filePaths, dbFiles, loc, env);
    forall p ensures p in plan.createdPaths <==> p in filePaths && forall f :: f in dbFiles ==> f.absolutePath != p {
      var found := Find(dbFiles, (f: FileRecord) => f.absolutePath == p);
      if found.Some? {
        assert found.value in dbFiles && found.value.absolutePath == p;
      }
    }
  }

  /**
   * `matches` has one entry per missing record; a defined entry is the
   * first created file of equal width, height and size, and an undefined
   * one means there is none.
   */
  lemma MatchesFirstFit(missing: seq<FileRecord>, created: seq<FileRecord>)
    ensures |Matches(missing, created)| == |missing|
    ensures forall i :: 0 <= i < |missing| ==>
      match Matches(missing, created)[i]
      case None => forall j :: 0 <= j < |created| ==> !SameShape(missing[i], created[j])
      case Some(j) => (j < |created| && SameShape(missing[i], created[j]) &&
                       forall k :: 0 <= k < j ==> !SameShape(missing[i], created[k]))
  {
    forall i | 0 <= i < |missing|
      ensures match Matches(missing, created)[i]
        case None => forall j :: 0 <= j < |created| ==> !SameShape(missing[i], created[j])
        case Some(j) => (j < |created| && SameShape(missing[i], created[j]) &&
                         forall k :: 0 <= k < j ==> !SameShape(missing[i], created[k]))
    {
      var p := (cf: FileRecord) => SameShape(missing[i], cf);
      assert Matches(missing, created)[i] == FirstIndex(created, p);
    }
  }

  /**
   * A created file is not withdrawn once matched: two missing records of
   * the same shape get the same match, and both are saved with that file's
   * absolute path.
   */
  lemma SameShapeSameMatch(missing: seq<FileRecord>, created: seq<FileRecord>, a: nat, b: nat)
    requires a < |missing| && b < |missing|
    requires SameShape(missing[a], missing[b])
    ensures Matches(missing, created)[a] == Matches(missing, created)[b]
    ensures Matches(missing, created)[a].Some? ==>
      var j := Matches(missing, created)[a].value;
      Retarget(missing[a], created[j]).absolutePath == Retarget(missing[b], created[j]).absolutePath
  {
    MatchesFirstFit(missing, created);
  }

  /** The inserted files are exactly the created files no missing record matched. */
  lemma NewFilesExact(filePaths: seq<string>, dbFiles: seq<FileRecord>, loc: Location, env: Env)
    ensures var plan := Reconcile(filePaths, dbFiles, loc, env);
      && (forall j :: 0 <= j < |plan.createdFiles| ==>
            (forall i :: 0 <= i < |plan.missingFiles| ==> plan.matches[i] != Some(j)) ==>
            plan.createdFiles[j] in plan.newFiles)
      && (forall f :: f in plan.newFiles ==>
            exists j :: (0 <= j < |plan.createdFiles| && f == plan.createdFiles[j] &&
                         forall i :: 0 <= i < |plan.missingFiles| ==> plan.matches[i] != Some(j)))
  {
    var plan := Reconcile(filePaths, dbFiles, loc, env);
    forall j | 0 <= j < |plan.createdFiles| && (forall i :: 0 <= i < |plan.missingFiles| ==> plan.matches[i] != Some(j))
      ensures plan.createdFiles[j] in plan.newFiles
    {
      assert Some(j) !in plan.matches;
    }
    forall f | f in plan.newFiles
      ensures exists j :: (0 <= j < |plan.createdFiles| && f == plan.createdFiles[j] &&
                           forall i :: 0 <= i < |plan.missingFiles| ==> plan.matches[i] != Some(j))
    {
      var j :| 0 <= j < |plan.createdFiles| && Some(j) !in plan.matches && f == plan.createdFiles[j];
      assert forall i :: 0 <= i < |plan.missingFiles| ==> plan.matches[i] in plan.matches;
    }
  }

  // ---------------------------------------------------------------------
  // Effect of one location on the catalog

  /** What one catalog record becomes after its location is reconciled against `filePaths`. */
  function Reconciled(c: FileRecord, locId: LocationId, filePaths: seq<string>, created: seq<FileRecord>): FileRecord {
    if c.locationId == locId && c.absolutePath !in filePaths then
      match FindMatch(c, created)
      case Some(j) => Retarget(c, created[j])
      case None => c
    else c
  }

  /** In a catalog with unique identifiers, a record equal-in-id to a catalog member is that member. */
  lemma SameIdSameRecord(cat: seq<FileRecord>, k: nat, m: FileRecord)
    requires UniqueIds(cat) && k < |cat| && m in cat && m.id == cat[k].id
    ensures m == cat[k]
  {
    var i :| 0 <= i < |cat| && cat[i] == m;
  }

  /**
   * Reconciling a reachable location keeps every existing record at its
   * position, rewrites exactly the matched missing records of that location,
   * and appends the unmatched created files.
   */
  lemma SyncOneCatalog(cat: seq<FileRecord>, loc: Location, filePaths: seq<string>, env: Env)
    requires UniqueIds(cat)
    ensures var plan := Reconcile(filePaths, LocationFiles(cat, loc.id), loc, env);
      var r := SyncOne(cat, loc, Found(filePaths), env);
      && |r.catalog| == |cat| + |plan.newFiles|
      && (forall k :: 0 <= k < |cat| ==> r.catalog[k] == Reconciled(cat[k], loc.id, filePaths, plan.createdFiles))
      && r.catalog[|cat|..] == plan.newFiles
      && r.foundNew == (|plan.newFiles| > 0)
  {
    var dbFiles := LocationFiles(cat, loc.id);
    var plan := Reconcile(filePaths, dbFiles, loc, env);
    var saved := SaveAll(cat, plan.renamed);
    var r := SyncOne(cat, loc, Found(filePaths), env);
    assert r.catalog == saved + plan.newFiles;
    forall k | 0 <= k < |cat|
      ensures r.catalog[k] == Reconciled(cat[k], loc.id, filePaths, plan.createdFiles)
    {
      var c := cat[k];
      assert r.catalog[k] == saved[k];
      match LastSave(plan.renamed, c.id)
      case Some(f) =>
        assert f in plan.renamed && f.id == c.id;
        var m :| m in plan.missingFiles && RenameOf(f, m, plan.createdFiles);
        var j := FindMatch(m, plan.createdFiles).value;
        assert m.id == c.id;
        SameIdSameRecord(cat, k, m);
      case None =>
        if c.locationId == loc.id && c.absolutePath !in filePaths {
          assert c in plan.missingFiles;
        }
    }
  }

  /**
   * Reconciliation deletes nothing and only ever rewrites path fields: every
   * existing record keeps its position, identifier, tags, location and
   * metadata; records of other locations and unmatched missing records are
   * left exactly as they were.
   */
  lemma SyncOneKeeps(cat: seq<FileRecord>, loc: Location, scan: ScanResult, env: Env)
    requires UniqueIds(cat)
    ensures var r := SyncOne(cat, loc, scan, env);
      && |r.catalog| >= |cat|
      && (forall k :: 0 <= k < |cat| ==>
            r.catalog[k].(absolutePath := cat[k].absolutePath, relativePath := cat[k].relativePath) == cat[k])
      && (forall k :: 0 <= k < |cat| && cat[k].locationId != loc.id ==> r.catalog[k] == cat[k])
      && (scan.Found? ==> forall k :: 0 <= k < |cat| && cat[k].absolutePath in scan.filePaths ==> r.catalog[k] == cat[k])
      && (scan.Found? ==>
            var created := Reconcile(scan.filePaths, LocationFiles(cat, loc.id), loc, env).createdFiles;
            forall k :: 0 <= k < |cat| && FindMatch(cat[k], created).None? ==> r.catalog[k] == cat[k])
  {
    if scan.Found? {
      SyncOneCatalog(cat, loc, scan.filePaths, env);
    }
  }

  /** A location found broken after its scan changes nothing and reports no new files. */
  lemma BrokenLocationSkipped(cat: seq<FileRecord>, locs: seq<Location>, scans: seq<ScanResult>, env: Env, i: nat)
    requires |scans| == |locs| && i < |locs| && scans[i].Broken?
    ensures SyncAll(cat, locs[..i + 1], scans[..i + 1], env) == SyncAll(cat, locs[..i], scans[..i], env)
  {
    assert locs[..i + 1][..i] == locs[..i];
    assert scans[..i + 1][..i] == scans[..i];
  }

  /** The start-up loop never removes a record: every identifier stays at its position. */
  lemma {:induction false} SyncAllKeepsIds(cat: seq<FileRecord>, locs: seq<Location>, scans: seq<ScanResult>, env: Env)
    requires |scans| == |locs|
    ensures |SyncAll(cat, locs, scans, env).catalog| >= |cat|
    ensures forall k :: 0 <= k < |cat| ==> SyncAll(cat, locs, scans, env).catalog[k].id == cat[k].id
    decreases |locs|
  {
    if |locs| > 0 {
      var n := |locs| - 1;
      SyncAllKeepsIds(cat, locs[..n], scans[..n], env);
    }
  }

  // ---------------------------------------------------------------------
  // Identifiers stay unique

  /** The identifiers the generator gives the paths. */
  function NewIds(newId: string -> FileId, paths: seq<string>): set<FileId> {
    set p | p in paths :: newId(p)
  }

  /**
   * `generateId` yields a new identifier on every call. With one identifier
   * per path this says: the paths get pairwise distinct identifiers (so no
   * path repeats), none of them already taken.
   */
  predicate FreshIds(newId: string -> FileId, paths: seq<string>, taken: set<FileId>) {
    && (forall i :: 0 <= i < |paths| ==> newId(paths[i]) !in taken)
    && (forall i, j :: 0 <= i < j < |paths| ==> newId(paths[i]) != newId(paths[j]))
  }

  /** Records built for paths with fresh identifiers have unique, new identifiers. */
  lemma CreatedFilesUniqueIds(paths: seq<string>, loc: Location, env: Env, taken: set<FileId>)
    requires FreshIds(env.newId, paths, taken)
    ensures UniqueIds(CreatedFiles(paths, loc, env))
    ensures forall f :: f in CreatedFiles(paths, loc, env) ==> f.id !in taken && f.id in NewIds(env.newId, paths)
  {
  }

  /** The unmatched created files keep the created files' unique identifiers. */
  lemma {:induction false} UnmatchedFromUniqueIds(created: seq<FileRecord>, matches: seq<Option<nat>>, from: nat)
    requires UniqueIds(created)
    ensures UniqueIds(UnmatchedFrom(created, matches, from))
    decreases |created| - from
  {
    if from < |created| {
      UnmatchedFromUniqueIds(created, matches, from + 1);
      var rest := UnmatchedFrom(created, matches, from + 1);
      var head := if Some(from) in matches then [] else [created[from]];
      forall f | f in rest
        ensures f.id != created[from].id
      {
        var j :| from + 1 <= j < |created| && Some(j) !in matches && f == created[j];
      }
      var r := head + rest;
      forall i, j | 0 <= i < j < |r|
        ensures r[i].id != r[j].id
      {
        if i < |head| {
          assert r[i] == created[from] && r[j] == rest[j - |head|];
          assert r[j] in rest;
        } else {
          assert r[i] == rest[i - |head|] && r[j] == rest[j - |head|];
        }
      }
    }
  }

  /** The created paths of a scan with fresh identifiers have fresh identifiers. */
  lemma CreatedPathsFresh(filePaths: seq<string>, dbFiles: seq<FileRecord>, newId: string -> FileId, taken: set<FileId>)
    requires FreshIds(newId, filePaths, taken)
    ensures FreshIds(newId, CreatedPaths(filePaths, dbFiles), taken)
    ensures forall p :: p in CreatedPaths(filePaths, dbFiles) ==> newId(p) in NewIds(newId, filePaths)
  {
    var q := (p: string) => Find(dbFiles, (f: FileRecord) => f.absolutePath == p).None?;
    var cp := CreatedPaths(filePaths, dbFiles);
    assert cp == Filter(filePaths, q);
    FilterDistinctKeys(filePaths, q, newId);
    forall i | 0 <= i < |cp|
      ensures newId(cp[i]) !in taken
    {
      assert cp[i] in cp;
      var k :| 0 <= k < |filePaths| && filePaths[k] == cp[i];
    }
  }

  /** The files a reconciliation inserts have unique identifiers, new ones of scanned paths. */
  lemma NewFilesFresh(filePaths: seq<string>, dbFiles: seq<FileRecord>, loc: Location, env: Env, taken: set<FileId>)
    requires FreshIds(env.newId, filePaths, taken)
    ensures var plan := Reconcile(filePaths, dbFiles, loc, env);
      && UniqueIds(plan.newFiles)
      && forall f :: f in plan.newFiles ==> f.id !in taken && f.id in NewIds(env.newId, filePaths)
  {
    var plan := Reconcile(filePaths, dbFiles, loc, env);
    CreatedPathsFresh(filePaths, dbFiles, env.newId, taken);
    CreatedFilesUniqueIds(plan.createdPaths, loc, env, taken);
    UnmatchedFromUniqueIds(plan.createdFiles, plan.matches, 0);
    forall f | f in plan.newFiles
      ensures f.id !in taken && f.id in NewIds(env.newId, filePaths)
    {
      var j :| 0 <= j < |plan.createdFiles| && f == plan.createdFiles[j];
      assert plan.createdFiles[j] in plan.createdFiles;
      assert plan.createdPaths[j] in plan.createdPaths;
    }
  }

  /**
   * Reconciling one location with fresh identifiers for its scanned paths
   * keeps identifiers unique, and only adds identifiers of scanned paths.
   */
  lemma SyncOneUniqueIds(cat: seq<FileRecord>, loc: Location, scan: ScanResult, env: Env)
    requires UniqueIds(cat)
    requires scan.Found? ==> FreshIds(env.newId, scan.filePaths, Ids(cat))
    ensures UniqueIds(SyncOne(cat, loc, scan, env).catalog)
    ensures scan.Broken? ==> Ids(SyncOne(cat, loc, scan, env).catalog) == Ids(cat)
    ensures scan.Found? ==>
      Ids(SyncOne(cat, loc, scan, env).catalog) <= Ids(cat) + NewIds(env.newId, scan.filePaths)
  {
    if scan.Found? {
      var plan := Reconcile(scan.filePaths, LocationFiles(cat, loc.id), loc, env);
      var saved := SaveAll(cat, plan.renamed);
      SaveAllUniqueIds(cat, plan.renamed);
      NewFilesFresh(scan.filePaths, LocationFiles(cat, loc.id), loc, env, Ids(cat));
      AppendUniqueIds(saved, plan.newFiles);
      assert SyncOne(cat, loc, scan, env).catalog == saved + plan.newFiles;
    }
  }

  /** The paths of all reachable scans, in loop order. */
  function ScannedPaths(scans: seq<ScanResult>): seq<string>
    decreases |scans|
  {
    if |scans| == 0 then []
    else
      var last := match scans[|scans| - 1] case Broken => [] case Found(filePaths) => filePaths;
      ScannedPaths(scans[..|scans| - 1]) + last
  }

  /** Fresh identifiers for `a + b` are fresh for `a`, then for `b` once `a`'s are taken. */
  lemma FreshIdsSplit(newId: string -> FileId, a: seq<string>, b: seq<string>, taken: set<FileId>)
    requires FreshIds(newId, a + b, taken)
    ensures FreshIds(newId, a, taken)
    ensures FreshIds(newId, b, taken + NewIds(newId, a))
    ensures NewIds(newId, a + b) == NewIds(newId, a) + NewIds(newId, b)
  {
    var ab := a + b;
    forall i | 0 <= i < |a|
      ensures newId(a[i]) !in taken
    {
      assert ab[i] == a[i];
    }
    forall i, j | 0 <= i < j < |a|
      ensures newId(a[i]) != newId(a[j])
    {
      assert ab[i] == a[i] && ab[j] == a[j];
    }
    forall i | 0 <= i < |b|
      ensures newId(b[i]) !in taken + NewIds(newId, a)
    {
      assert ab[|a| + i] == b[i];
      forall p | p in a
        ensures newId(p) != newId(b[i])
      {
        var k :| 0 <= k < |a| && a[k] == p;
        assert ab[k] == a[k];
      }
    }
    forall i, j | 0 <= i < j < |b|
      ensures newId(b[i]) != newId(b[j])
    {
      assert ab[|a| + i] == b[i] && ab[|a| + j] == b[j];
    }
  }

  /**
   * The start-up loop keeps identifiers unique when every scanned path gets
   * a fresh identifier, and only adds identifiers of scanned paths.
   */
  lemma {:induction false} SyncAllUniqueIds(cat: seq<FileRecord>, locs: seq<Location>, scans: seq<ScanResult>, env: Env)
    requires |scans| == |locs|
    requires UniqueIds(cat) && FreshIds(env.newId, ScannedPaths(scans), Ids(cat))
    ensures UniqueIds(SyncAll(cat, locs, scans, env).catalog)
    ensures Ids(SyncAll(cat, locs, scans, env).catalog) <= Ids(cat) + NewIds(env.newId, ScannedPaths(scans))
    decreases |locs|
  {
    if |locs| > 0 {
      var n := |locs| - 1;
      var last := match scans[n] case Broken => [] case Found(filePaths) => filePaths;
      assert ScannedPaths(scans) == ScannedPaths(scans[..n]) + last;
      FreshIdsSplit(env.newId, ScannedPaths(scans[..n]), last, Ids(cat));
      SyncAllUniqueIds(cat, locs[..n], scans[..n], env);
      var prev := SyncAll(cat, locs[..n], scans[..n], env);
      SyncOneUniqueIds(prev.catalog, locs[n], scans[n], env);
    }
  }
}
