/**
 * The location store: the in-memory list of watched locations and the
 * operations on it, over the catalog of file records it writes through the
 * backend. `Init` runs the start-up reconciliation location by location.
 */
module LocationStore {
  import opened Collections
  import opened Catalog
  import opened Reconciliation

  /** `list.remove(x)`: drop the first occurrence of `x`, if there is one. */
  function RemoveFirst(s: seq<Location>, x: Location): (r: seq<Location>)
    ensures x !in s ==> r == s
    ensures x in s ==> exists i :: 0 <= i < |s| && s[i] == x && (forall j :: 0 <= j < i ==> s[j] != x) &&
                                   r == s[..i] + s[i + 1..]
  {
    match FirstIndex(s, (l: Location) => l == x)
    case None => s
    case Some(i) => s[..i] + s[i + 1..]
  }

  /** Removing a location takes exactly one copy of it out of the list. */
  lemma RemoveFirstMultiset(s: seq<Location>, x: Location)
    ensures multiset(RemoveFirst(s, x)) == multiset(s) - multiset{x}
  {
    if x in s {
      var i :| 0 <= i < |s| && s[i] == x && RemoveFirst(s, x) == s[..i] + s[i + 1..];
      assert s == s[..i] + [x] + s[i + 1..];
    }
  }

  /** `fileStore.deleteFiles(ids)` for the files of one location. */
  function DeleteLocationFiles(cat: seq<FileRecord>, locationId: LocationId): (r: seq<FileRecord>)
    ensures forall f :: f in r ==> f in cat && f.locationId != locationId
    ensures UniqueIds(cat) ==> forall f :: f in cat && f.locationId != locationId ==> f in r
    ensures UniqueIds(cat) ==> UniqueIds(r)
  {
    var doomed := Ids(LocationFiles(cat, locationId));
    assert forall f :: f in cat && f.locationId == locationId ==> f.id in doomed;
    assert UniqueIds(cat) ==> forall f :: f in cat && f.locationId != locationId ==> f.id !in doomed;
    var keep := (f: FileRecord) => f.id !in doomed;
    assert UniqueIds(cat) ==> UniqueIds(Filter(cat, keep)) by {
      if UniqueIds(cat) {
        FilterUniqueIds(cat, keep);
      }
    }
    Filter(cat, keep)
  }

  /** The records `changeLocationPath` saves: absolute paths rebuilt under the new root. */
  function PathRewrites(locFiles: seq<FileRecord>, newPath: string, join: (string, string) -> string): (r: seq<FileRecord>)
    ensures |r| == |locFiles|
  {
    seq(|locFiles|, i requires 0 <= i < |locFiles| =>
      locFiles[i].(absolutePath := join(newPath, locFiles[i].relativePath)))
  }

  /**
   * Saving the rewrites of a location's files rebuilds the absolute path of
   * exactly those files, from their relative path, and changes nothing else.
   */
  lemma PathRewriteEffect(cat: seq<FileRecord>, locationId: LocationId, newPath: string, join: (string, string) -> string)
    requires UniqueIds(cat)
    ensures var r := SaveAll(cat, PathRewrites(LocationFiles(cat, locationId), newPath, join));
      && |r| == |cat|
      && forall k :: 0 <= k < |cat| ==>
           r[k] == if cat[k].locationId == locationId
                   then cat[k].(absolutePath := join(newPath, cat[k].relativePath))
                   else cat[k]
  {
    var locFiles := LocationFiles(cat, locationId);
    var saves := PathRewrites(locFiles, newPath, join);
    var r := SaveAll(cat, saves);
    forall k | 0 <= k < |cat|
      ensures r[k] == if cat[k].locationId == locationId
                      then cat[k].(absolutePath := join(newPath, cat[k].relativePath))
                      else cat[k]
    {
      var c := cat[k];
      if c.locationId == locationId {
        var i :| 0 <= i < |locFiles| && locFiles[i] == c;
        assert saves[i] in saves && saves[i].id == c.id;
      }
      match LastSave(saves, c.id)
      case Some(f) =>
        var i :| 0 <= i < |saves| && saves[i] == f;
        assert locFiles[i] in cat && locFiles[i].id == c.id;
        SameIdSameRecord(cat, k, locFiles[i]);
      case None =>
    }
  }

  class LocationStore {
    /** The watched locations, in the order the backend returned or they were added. */
    var locationList: seq<Location>
    /** The backend's file records. */
    var catalog: seq<FileRecord>

    /** The backend's primary key holds for the catalog. */
    predicate Valid()
      reads this
    {
      UniqueIds(catalog)
    }

    constructor (catalog: seq<FileRecord>)
      ensures this.catalog == catalog && locationList == []
    {
      this.catalog := catalog;
      locationList := [];
    }

    /** `get`: the first location with the given identifier. */
    function Get(locationId: LocationId): (r: Option<Location>)
      reads this
      ensures r.None? <==> forall l :: l in locationList ==> l.id != locationId
      ensures r.Some? ==> exists i :: 0 <= i < |locationList| && locationList[i] == r.value &&
                                      r.value.id == locationId &&
                                      forall j :: 0 <= j < i ==> locationList[j].id != locationId
    {
      match FirstIndex(locationList, (l: Location) => l.id == locationId)
      case None => None
      case Some(i) => Some(locationList[i])
    }

    /**
     * `init`: replace the location list by the backend's, then (when
     * `autoLoad`) reconcile every location with its scan, in order.
     * `scans[i]` is what scanning `dirs[i]` yields.
     */
    method Init(autoLoad: bool, dirs: seq<Location>, scans: seq<ScanResult>, env: Env) returns (foundNewFiles: bool)
      requires |scans| == |dirs|
      modifies this
      ensures locationList == dirs
      ensures autoLoad ==> Sync(catalog, foundNewFiles) == SyncAll(old(catalog), dirs, scans, env)
      ensures !autoLoad ==> catalog == old(catalog) && !foundNewFiles
      ensures old(Valid()) && FreshIds(env.newId, ScannedPaths(scans), Ids(old(catalog))) ==> Valid()
    {
      locationList := dirs;
      foundNewFiles := false;
      if !autoLoad {
        return;
      }
      var i := 0;
      while i < |dirs|
        invariant 0 <= i <= |dirs|
        invariant locationList == dirs
        invariant Sync(catalog, foundNewFiles) == SyncAll(old(catalog), dirs[..i], scans[..i], env)
      {
        var loc := dirs[i];
        match scans[i] {
          case Broken =>
          case Found(filePaths) =>
            var dbFiles := LocationFiles(catalog, loc.id);
            var plan := Reconcile(filePaths, dbFiles, loc, env);
            catalog := SaveAll(catalog, plan.renamed);
            catalog := catalog + plan.newFiles;
            foundNewFiles := foundNewFiles || |plan.newFiles| > 0;
        }
        assert dirs[..i + 1][..i] == dirs[..i];
        assert scans[..i + 1][..i] == scans[..i];
        i := i + 1;
      }
      assert dirs[..i] == dirs && scans[..i] == scans;
      if old(Valid()) && FreshIds(env.newId, ScannedPaths(scans), Ids(old(catalog))) {
        SyncAllUniqueIds(old(catalog), dirs, scans, env);
      }
    }

    /**
     * `setDefaultLocation`: on first launch create the default location,
     * otherwise point the existing one at `dir`.
     */
    method SetDefaultLocation(dir: string, now: int)
      modifies this
      ensures catalog == old(catalog)
      ensures old(Get(DefaultLocationId)).None? ==>
        locationList == old(locationList) + [Location(DefaultLocationId, dir, now, [], false)]
      ensures old(Get(DefaultLocationId)).Some? ==>
        exists i :: 0 <= i < |old(locationList)| && old(locationList)[i] == old(Get(DefaultLocationId)).value &&
                    locationList == old(locationList)[i := old(locationList)[i].(path := dir)]
      ensures Get(DefaultLocationId).Some? && Get(DefaultLocationId).value.path == dir
    {
      match FirstIndex(locationList, (l: Location) => l.id == DefaultLocationId)
      case None =>
        locationList := locationList + [Location(DefaultLocationId, dir, now, [], false)];
        assert locationList[|locationList| - 1].id == DefaultLocationId;
      case Some(i) =>
        locationList := locationList[i := locationList[i].(path := dir)];
        assert locationList[i].id == DefaultLocationId;
    }

    /**
     * `changeLocationPath`: every file of the location gets an absolute path
     * built from the new root and its relative path.
     */
    method ChangeLocationPath(location: Location, newPath: string, join: (string, string) -> string)
      modifies this
      ensures locationList == old(locationList)
      ensures |catalog| == |old(catalog)|
      ensures UniqueIds(old(catalog)) ==> forall k :: 0 <= k < |catalog| ==>
        catalog[k] == if old(catalog)[k].locationId == location.id
                      then old(catalog)[k].(absolutePath := join(newPath, old(catalog)[k].relativePath))
                      else old(catalog)[k]
      ensures old(Valid()) ==> Valid()
    {
      var saves := PathRewrites(LocationFiles(catalog, location.id), newPath, join);
      if UniqueIds(catalog) {
        SaveAllUniqueIds(catalog, saves);
        PathRewriteEffect(catalog, location.id, newPath, join);
      }
      catalog := SaveAll(catalog, saves);
    }

    /** `create`: append one new location. */
    method Create(path: string, id: LocationId, now: int) returns (loc: Location)
      modifies this
      ensures loc == Location(id, path, now, [], false)
      ensures locationList == old(locationList) + [loc]
      ensures catalog == old(catalog)
    {
      loc := Location(id, path, now, [], false);
      locationList := locationList + [loc];
    }

    /** `delete`: remove the location's files, then the location itself. */
    method Delete(location: Location)
      modifies this
      ensures catalog == DeleteLocationFiles(old(catalog), location.id)
      ensures locationList == RemoveFirst(old(locationList), location)
      ensures multiset(locationList) == multiset(old(locationList)) - multiset{location}
      ensures old(Valid()) ==> Valid()
    {
      catalog := DeleteLocationFiles(catalog, location.id);
      RemoveFirstMultiset(locationList, location);
      locationList := RemoveFirst(locationList, location);
    }

    /**
     * `initializeLocation`: import every scanned file of a new location,
     * unless the user cancelled during the scan; the cancel handler has then
     * deleted the location and nothing is created.
     */
    method InitializeLocation(loc: Location, filePaths: seq<string>, cancelled: bool, env: Env)
      modifies this
      ensures cancelled ==> catalog == DeleteLocationFiles(old(catalog), loc.id) &&
                            locationList == RemoveFirst(old(locationList), loc)
      ensures !cancelled ==> catalog == old(catalog) + CreatedFiles(filePaths, loc, env) &&
                             locationList == old(locationList)
      ensures old(Valid()) && (!cancelled ==> FreshIds(env.newId, filePaths, Ids(old(catalog)))) ==> Valid()
    {
      if cancelled {
        Delete(loc);
        return;
      }
      if Valid() && FreshIds(env.newId, filePaths, Ids(catalog)) {
        CreatedFilesUniqueIds(filePaths, loc, env, Ids(catalog));
        AppendUniqueIds(catalog, CreatedFiles(filePaths, loc, env));
      }
      catalog := catalog + CreatedFiles(filePaths, loc, env);
    }
  }

  /** Every file imported by `initializeLocation` belongs to the location and carries its tags to add. */
  lemma InitializedFilesBelong(filePaths: seq<string>, loc: Location, env: Env)
    ensures var files := CreatedFiles(filePaths, loc, env);
      && |files| == |filePaths|
      && forall i :: 0 <= i < |files| ==>
           files[i].absolutePath == filePaths[i] && files[i].locationId == loc.id && files[i].tags == loc.tagsToAdd
  {
  }
}
