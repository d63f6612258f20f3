/**
 * Thumbnail requests and responses. A file's thumbnail path is set directly
 * when a thumbnail already exists on disk; otherwise a request is posted on
 * the single worker's queue, which handles requests one at a time in posting
 * order. A success response sets the reported thumbnail path on the file with
 * that identifier; an error response falls back to the file's own path.
 *
 * A thumbnail path of "" means "not set": the program tests it for
 * falsiness, which treats an empty and an undefined path alike.
 */
module ThumbnailGeneration {
  import opened Collections
  import opened Strings

  /** A request posted to the worker. */
  datatype ThumbnailMessage = ThumbnailMessage(
    filePath: string,
    fileId: string,
    thumbnailDirectory: string,
    thumbnailType: string)

  /** A file as the renderer holds it; only its thumbnail path changes. */
  class ClientFile {
    const id: string
    const path: string
    var thumbnailPath: string

    constructor (id: string, path: string)
      ensures this.id == id && this.path == path && thumbnailPath == ""
    {
      this.id := id;
      this.path := path;
      thumbnailPath := "";
    }

    method SetThumbnailPath(thumbnailPath: string)
      modifies this
      ensures this.thumbnailPath == thumbnailPath
    {
      this.thumbnailPath := thumbnailPath;
    }
  }

  /** The single background worker: a FIFO of posted requests. */
  class ThumbnailWorker {
    var queue: seq<ThumbnailMessage>

    constructor ()
      ensures queue == []
    {
      queue := [];
    }

    /** `postMessage`: the request joins the back of the queue. */
    method PostMessage(msg: ThumbnailMessage)
      modifies this
      ensures queue == old(queue) + [msg]
    {
      queue := queue + [msg];
    }

    /** The worker takes the oldest request, if any. */
    method Take() returns (msg: Option<ThumbnailMessage>)
      modifies this
      ensures old(queue) == [] ==> msg.None? && queue == []
      ensures old(queue) != [] ==> msg == Some(old(queue)[0]) && queue == old(queue)[1..]
    {
      if queue == [] {
        msg := None;
      } else {
        msg := Some(queue[0]);
        queue := queue[1..];
      }
    }
  }

  /**
   * `ensureThumbnail`. `thumbnailPathOf` derives the thumbnail's path from
   * the file's path and the directory; `onDisk` holds the paths that exist.
   */
  method EnsureThumbnail(file: ClientFile, thumbnailDir: string, worker: ThumbnailWorker,
                         thumbnailType: string, thumbnailPathOf: (string, string) -> string, onDisk: set<string>)
    modifies file, worker
    ensures old(file.thumbnailPath) != "" ==>
      file.thumbnailPath == old(file.thumbnailPath) && worker.queue == old(worker.queue)
    ensures old(file.thumbnailPath) == "" && thumbnailPathOf(file.path, thumbnailDir) in onDisk ==>
      file.thumbnailPath == thumbnailPathOf(file.path, thumbnailDir) && worker.queue == old(worker.queue)
    ensures old(file.thumbnailPath) == "" && thumbnailPathOf(file.path, thumbnailDir) !in onDisk ==>
      file.thumbnailPath == "" &&
      worker.queue == old(worker.queue) + [ThumbnailMessage(file.path, file.id, thumbnailDir, thumbnailType)]
  {
    if file.thumbnailPath == "" {
      var thumbnailPath := thumbnailPathOf(file.path, thumbnailDir);
      var thumbnailExists := thumbnailPath in onDisk;
      if !thumbnailExists {
        var msg := ThumbnailMessage(file.path, file.id, thumbnailDir, thumbnailType);
        worker.PostMessage(msg);
      } else {
        file.SetThumbnailPath(thumbnailPath);
      }
    }
  }

  /** Two calls before any response post two identical requests: there is no de-duplication. */
  method EnsureThumbnailTwice(file: ClientFile, thumbnailDir: string, worker: ThumbnailWorker,
                              thumbnailType: string, thumbnailPathOf: (string, string) -> string, onDisk: set<string>)
    requires file.thumbnailPath == "" && thumbnailPathOf(file.path, thumbnailDir) !in onDisk
    modifies file, worker
    ensures var msg := ThumbnailMessage(file.path, file.id, thumbnailDir, thumbnailType);
      worker.queue == old(worker.queue) + [msg, msg]
  {
    EnsureThumbnail(file, thumbnailDir, worker, thumbnailType, thumbnailPathOf, onDisk);
    EnsureThumbnail(file, thumbnailDir, worker, thumbnailType, thumbnailPathOf, onDisk);
  }

  /** `fileStore.fileList.find((f) => f.id === fileId)`. */
  function FindFile(fileList: seq<ClientFile>, fileId: string): (r: Option<ClientFile>)
    ensures r.None? <==> forall f :: f in fileList ==> f.id != fileId
    ensures r.Some? ==> r.value in fileList && r.value.id == fileId
  {
    Find(fileList, (f: ClientFile) => f.id == fileId)
  }

  /** `onmessage`: set the reported thumbnail path on the file with that identifier. */
  method OnMessage(fileList: seq<ClientFile>, fileId: string, thumbnailPath: string)
    modifies fileList
    ensures FindFile(fileList, fileId).Some? ==> FindFile(fileList, fileId).value.thumbnailPath == thumbnailPath
    ensures forall f :: f in fileList && Some(f) != FindFile(fileList, fileId) ==> f.thumbnailPath == old(f.thumbnailPath)
  {
    var clientFile := FindFile(fileList, fileId);
    if clientFile.Some? {
      clientFile.value.SetThumbnailPath(thumbnailPath);
    }
  }

  /** `onerror`: fall back to the file's own path as its thumbnail. */
  method OnError(fileList: seq<ClientFile>, fileId: string)
    modifies fileList
    ensures FindFile(fileList, fileId).Some? ==>
      FindFile(fileList, fileId).value.thumbnailPath == FindFile(fileList, fileId).value.path
    ensures forall f :: f in fileList && Some(f) != FindFile(fileList, fileId) ==> f.thumbnailPath == old(f.thumbnailPath)
  {
    var clientFile := FindFile(fileList, fileId);
    if clientFile.Some? {
      clientFile.value.SetThumbnailPath(clientFile.value.path);
    }
  }

  /**
   * The worker finishes its oldest request and the listener handles the
   * response: `result` is the generated thumbnail path, or None when the
   * worker reported an error.
   */
  method HandleNext(worker: ThumbnailWorker, fileList: seq<ClientFile>, result: Option<string>)
      returns (handled: Option<ThumbnailMessage>)
    modifies worker, fileList
    ensures old(worker.queue) == [] ==>
      (handled.None? && worker.queue == [] && forall f :: f in fileList ==> f.thumbnailPath == old(f.thumbnailPath))
    ensures old(worker.queue) != [] ==> handled == Some(old(worker.queue)[0]) && worker.queue == old(worker.queue)[1..]
    ensures handled.Some? ==>
      var target := FindFile(fileList, handled.value.fileId);
      && (target.Some? ==> target.value.thumbnailPath == match result case Some(p) => p case None => target.value.path)
      && forall f :: f in fileList && Some(f) != target ==> f.thumbnailPath == old(f.thumbnailPath)
  {
    handled := worker.Take();
    if handled.Some? {
      match result {
        case Some(p) => OnMessage(fileList, handled.value.fileId, p);
        case None => OnError(fileList, handled.value.fileId);
      }
    }
  }

  /** A move of one directory entry from `from` to `to`. */
  datatype Move = Move(from: string, to: string)

  /** The entries of a listing whose name ends with the thumbnail type, in listing order. */
  function ThumbnailNames(listing: seq<string>, thumbnailType: string): (r: seq<string>)
    ensures forall n :: n in r <==> n in listing && EndsWith(n, thumbnailType)
  {
    Filter(listing, (n: string) => EndsWith(n, thumbnailType))
  }

  /**
   * `moveThumbnailDir`: walk the source directory's listing and move each
   * thumbnail entry (by name suffix) to the same name in the target
   * directory, one at a time. Returns the moves issued, in order.
   */
  method MoveThumbnailDir(sourceDir: string, targetDir: string, listing: seq<string>,
                          thumbnailType: string, join: (string, string) -> string)
      returns (moves: seq<Move>)
    ensures var names := ThumbnailNames(listing, thumbnailType);
      && |moves| == |names|
      && forall k :: 0 <= k < |moves| ==> moves[k] == Move(join(sourceDir, names[k]), join(targetDir, names[k]))
  {
    moves := [];
    var i := 0;
    while i < |listing|
      invariant 0 <= i <= |listing|
      invariant var names := ThumbnailNames(listing[..i], thumbnailType);
        && |moves| == |names|
        && forall k :: 0 <= k < |moves| ==> moves[k] == Move(join(sourceDir, names[k]), join(targetDir, names[k]))
    {
      var file := listing[i];
      FilterSnoc(listing[..i], file, (n: string) => EndsWith(n, thumbnailType));
      assert listing[..i + 1] == listing[..i] + [file];
      if EndsWith(file, thumbnailType) {
        var oldPath := join(sourceDir, file);
        var newPath := join(targetDir, file);
        moves := moves + [Move(oldPath, newPath)];
      }
      i := i + 1;
    }
    assert listing[..i] == listing;
  }
}
