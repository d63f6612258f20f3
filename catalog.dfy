/**
 * The catalog's entities and the part of the storage backend's contract the
 * location store relies on: a file record is saved by full replacement of
 * the record with the same identifier, and a location's files are found by
 * a search on `locationId`.
 *
 * The catalog is a sequence of file records; its order stands for the order
 * in which the backend returns search results.
 */
module Catalog {
  import opened Collections

  type FileId = string
  type LocationId = string
  type TagId = string

  /** Identifier of the import location, which cannot be deleted from the menu. */
  const DefaultLocationId: LocationId := "default-location"

  /** A watched directory. `tagsToAdd` is an insertion-ordered set. */
  datatype Location = Location(
    id: LocationId,
    path: string,
    dateAdded: int,
    tagsToAdd: seq<TagId>,
    isInitialized: bool)

  /** A catalog entry for one image file. */
  datatype FileRecord = FileRecord(
    id: FileId,
    locationId: LocationId,
    absolutePath: string,
    relativePath: string,
    tags: seq<TagId>,
    dateAdded: int,
    dateModified: int,
    width: int,
    height: int,
    size: int)

  /** The backend's primary key: no two records share an identifier. */
  predicate UniqueIds(cat: seq<FileRecord>) {
    forall i, j :: 0 <= i < j < |cat| ==> cat[i].id != cat[j].id
  }

  /** Identifiers of a list of records. */
  function Ids(files: seq<FileRecord>): set<FileId> {
    set f | f in files :: f.id
  }

  /** Selecting records keeps identifiers unique. */
  lemma FilterUniqueIds(cat: seq<FileRecord>, p: FileRecord -> bool)
    requires UniqueIds(cat)
    ensures UniqueIds(Filter(cat, p))
  {
    FilterDistinctKeys(cat, p, (f: FileRecord) => f.id);
  }

  /**
   * Appending records whose identifiers are unique among themselves and new
   * to the catalog keeps identifiers unique.
   */
  lemma AppendUniqueIds(cat: seq<FileRecord>, extra: seq<FileRecord>)
    requires UniqueIds(cat) && UniqueIds(extra)
    requires forall f :: f in extra ==> f.id !in Ids(cat)
    ensures UniqueIds(cat + extra)
    ensures Ids(cat + extra) == Ids(cat) + Ids(extra)
  {
    var r := cat + extra;
    forall i, j | 0 <= i < j < |r|
      ensures r[i].id != r[j].id
    {
      if j >= |cat| {
        assert r[j] == extra[j - |cat|] && r[j] in extra;
        if i < |cat| {
          assert r[i] == cat[i] && cat[i] in cat;
        } else {
          assert r[i] == extra[i - |cat|];
        }
      }
    }
  }

  /** `saveFile`: every record with the identifier of `f` is replaced by `f`. */
  function SaveFile(cat: seq<FileRecord>, f: FileRecord): (r: seq<FileRecord>)
    ensures |r| == |cat|
    ensures forall k :: 0 <= k < |cat| ==> r[k] == if cat[k].id == f.id then f else cat[k]
  {
    if |cat| == 0 then []
    else [if cat[0].id == f.id then f else cat[0]] + SaveFile(cat[1..], f)
  }

  /** The last of `saves` that carries identifier `id`, if any. */
  function LastSave(saves: seq<FileRecord>, id: FileId): (r: Option<FileRecord>)
    ensures r.Some? ==> r.value in saves && r.value.id == id
    ensures r.None? <==> forall f :: f in saves ==> f.id != id
  {
    if |saves| == 0 then None
    else if saves[|saves| - 1].id == id then Some(saves[|saves| - 1])
    else
      assert saves == saves[..|saves| - 1] + [saves[|saves| - 1]];
      LastSave(saves[..|saves| - 1], id)
  }

  /** Saving `saves` one after the other, in order. */
  function SaveAll(cat: seq<FileRecord>, saves: seq<FileRecord>): (r: seq<FileRecord>)
    ensures |r| == |cat|
    ensures forall k :: 0 <= k < |cat| ==>
      r[k] == match LastSave(saves, cat[k].id) case Some(f) => f case None => cat[k]
  {
    if |saves| == 0 then cat
    else SaveFile(SaveAll(cat, saves[..|saves| - 1]), saves[|saves| - 1])
  }

  /**
   * Saves by identifier never change the identifier at any position, so
   * they keep identifiers unique and the set of identifiers as it was.
   */
  lemma SaveAllUniqueIds(cat: seq<FileRecord>, saves: seq<FileRecord>)
    requires UniqueIds(cat)
    ensures UniqueIds(SaveAll(cat, saves))
    ensures Ids(SaveAll(cat, saves)) == Ids(cat)
  {
    var r := SaveAll(cat, saves);
    assert forall k :: 0 <= k < |cat| ==> r[k].id == cat[k].id;
    forall x | x in Ids(r)
      ensures x in Ids(cat)
    {
      var f :| f in r && f.id == x;
      var k :| 0 <= k < |r| && r[k] == f;
      assert cat[k] in cat;
    }
    forall x | x in Ids(cat)
      ensures x in Ids(r)
    {
      var f :| f in cat && f.id == x;
      var k :| 0 <= k < |cat| && cat[k] == f;
      assert r[k] in r;
    }
  }

  /** `findLocationFiles`: the records of one location, in catalog order. */
  function LocationFiles(cat: seq<FileRecord>, locationId: LocationId): (r: seq<FileRecord>)
    ensures forall f :: f in r <==> f in cat && f.locationId == locationId
  {
    Filter(cat, (f: FileRecord) => f.locationId == locationId)
  }
}
