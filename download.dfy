/**
 * Downloads: one file to a local path, a whole folder recursively, and a file someone
 * shared through a share string.
 */
module Download {
  import opened Wrappers
  import opened Text
  import opened VaultIndex
  import opened Errors
  import opened Oracles
  import opened FileAccess
  import Base64

  /** The fields of a share string "username:reference:sharePassword[:base64(filename)]". */
  datatype ShareRequest = ShareRequest(username: string, reference: string, sharePassword: string, filename: string)

  /** Where a share's pointer is stored in the owner's vault. */
  function SharedPath(reference: string): string
  {
    "shared/" + reference
  }

  /**
   * The parsing step of DownloadSharedFile: split on ':' into three or four parts, and
   * base64-decode the optional fourth into the suggested file name.
   */
  function ParseShareString(shareString: string): (r: Result<ShareRequest, Error>)
    ensures var parts := Split(shareString, ':');
      (|parts| < 3 || |parts| > 4 ==> r == Err(InvalidShareString))
      && (|parts| == 4 && Base64.StdDecode(parts[3]).None? ==> r == Err(InvalidFilenameEncoding))
      && (r.Ok? <==> (|parts| == 3 || (|parts| == 4 && Base64.StdDecode(parts[3]).Some?)))
      && (r.Ok? ==> r.value.username == parts[0] && r.value.reference == parts[1] && r.value.sharePassword == parts[2])
      && (r.Ok? && |parts| == 3 ==> r.value.filename == "")
      && (r.Ok? && |parts| == 4 ==> r.value.filename == BytesToString(Base64.StdDecode(parts[3]).value))
  {
    var parts := Split(shareString, ':');
    if |parts| < 3 || |parts| > 4 then Err(InvalidShareString)
    else if |parts| == 3 then Ok(ShareRequest(parts[0], parts[1], parts[2], ""))
    else
      match Base64.StdDecode(parts[3])
      case None => Err(InvalidFilenameEncoding)
      case Some(decoded) => Ok(ShareRequest(parts[0], parts[1], parts[2], BytesToString(decoded)))
  }

  /** A three-part share string parses back into its parts, with no file name. */
  lemma ParseThreeParts(username: string, reference: string, sharePassword: string)
    requires ':' !in username && ':' !in reference && ':' !in sharePassword
    ensures Split(username + ":" + reference + ":" + sharePassword, ':') == [username, reference, sharePassword]
    ensures ParseShareString(username + ":" + reference + ":" + sharePassword)
            == Ok(ShareRequest(username, reference, sharePassword, ""))
  {
    var parts := [username, reference, sharePassword];
    var s := username + ":" + reference + ":" + sharePassword;
    assert parts[1..][1..] == [sharePassword];
    assert Join(parts[1..], ':') == reference + ":" + sharePassword;
    assert Join(parts, ':') == s;
    Text.SplitOfJoin(parts, ':');
    assert Split(s, ':') == parts;
  }

  /**
   * A four-part share string, its fields joined by ':' and the last the base64 encoding
   * of a file name, parses back into its fields and that name.
   */
  lemma ParseFourParts(username: string, reference: string, sharePassword: string, name: Bytes)
    requires ':' !in username && ':' !in reference && ':' !in sharePassword
    ensures ParseShareString(Join([username, reference, sharePassword, Base64.StdEncode(name)], ':'))
            == Ok(ShareRequest(username, reference, sharePassword, BytesToString(name)))
  {
    var parts := [username, reference, sharePassword, Base64.StdEncode(name)];
    Base64.NoColonInEncoding(name);
    Base64.DecodeEncode(name);
    Text.SplitOfJoin(parts, ':');
  }

  /** A share string with more than three separators is refused whatever its parts are. */
  lemma TooManyPartsRefused(parts: seq<string>)
    requires |parts| > 4 && forall i | 0 <= i < |parts| :: ':' !in parts[i]
    ensures ParseShareString(Join(parts, ':')) == Err(InvalidShareString)
  {
    Text.SplitOfJoin(parts, ':');
  }

  /** The local path DownloadSharedFile writes to: the shared file name only when no output path was given. */
  function OutputPath(filename: string, outputPath: string): (p: string)
    ensures filename != "" && outputPath == "" ==> p == filename
    ensures filename == "" || outputPath != "" ==> p == outputPath
    ensures p == "" <==> filename == "" && outputPath == ""
  {
    if filename != "" && outputPath == "" then filename else outputPath
  }

  /**
   * DownloadFile: the plaintext written to the output path. A missing entry and a folder
   * are refused before anything is fetched; otherwise the file is read as every stored
   * file is.
   */
  function DownloadFile(o: Oracles, index: Index, username: string, password: string, vaultPath: string)
    : (r: Result<Bytes, Error>)
    ensures o.findEntry(index, vaultPath).None? ==> r == Err(NotFound(vaultPath))
    ensures o.findEntry(index, vaultPath).Some? && o.findEntry(index, vaultPath).value.Type == FolderType
            ==> r == Err(IsDirectory(vaultPath))
    ensures r.Ok? || r.error.FileFailed? <==>
            o.findEntry(index, vaultPath).Some? && o.findEntry(index, vaultPath).value.Type != FolderType
    ensures r.Ok? || r.error.FileFailed? ==>
      var e := o.findEntry(index, vaultPath).value;
      var read := OpenStoredFile(o, username, password, e.RealName, e.FileKey, vaultPath);
      (r.Ok? <==> read.Ok?) && (r.Ok? ==> r.value == read.value) && (r.Err? ==> r.error.failure == read.error)
  {
    match o.findEntry(index, vaultPath)
    case None => Err(NotFound(vaultPath))
    case Some(e) =>
      if e.Type == FolderType then Err(IsDirectory(vaultPath))
      else
        match OpenStoredFile(o, username, password, e.RealName, e.FileKey, vaultPath)
        case Err(fe) => Err(FileFailed(fe))
        case Ok(data) => Ok(data)
  }

  /**
   * DownloadSharedFile: the local path and the plaintext it writes. The pointer stored at
   * "shared/<reference>" is decrypted with the share password into a JSON map naming the
   * storage id and the wrapped file key; the file is then read with the share password.
   */
  function DownloadSharedFile(o: Oracles, shareString: string, outputPath: string)
    : (r: Result<(string, Bytes), Error>)
    ensures ParseShareString(shareString).Err? ==> r == Err(ParseShareString(shareString).error)
    ensures r.Ok? ==>
      var req := ParseShareString(shareString).value;
      ParseShareString(shareString).Ok?
      && r.value.0 == OutputPath(req.filename, outputPath)
      && o.fetchRaw(req.username, SharedPath(req.reference)).Ok?
      && o.decrypt(o.fetchRaw(req.username, SharedPath(req.reference)).value, req.sharePassword).Some?
    ensures ParseShareString(shareString).Ok? ==>
      var req := ParseShareString(shareString).value;
      var pointer := o.fetchRaw(req.username, SharedPath(req.reference));
      (pointer.Err? ==> r == Err(FetchFailed(pointer.error)))
      && (pointer.Ok? && o.decrypt(pointer.value, req.sharePassword).None? ==> r == Err(InvalidSharePassword))
    ensures ParseShareString(shareString).Ok? ==>
      var req := ParseShareString(shareString).value;
      var pointer := o.fetchRaw(req.username, SharedPath(req.reference));
      pointer.Ok? && o.decrypt(pointer.value, req.sharePassword).Some? ==>
        var fields := o.parsePointer(o.decrypt(pointer.value, req.sharePassword).value);
        (fields.None? ==> r == Err(InvalidPointerFormat))
        && (fields.Some? && "storageID" !in fields.value ==> r == Err(PointerMissingStorageId))
        && (fields.Some? && "storageID" in fields.value && "fileKey" !in fields.value ==> r == Err(PointerMissingFileKey))
        && (fields.Some? && "storageID" in fields.value && "fileKey" in fields.value ==>
              var read := OpenStoredFile(o, req.username, req.sharePassword,
                                         fields.value["storageID"], fields.value["fileKey"], fields.value["storageID"]);
              (read.Err? ==> r == Err(FileFailed(read.error)))
              && (read.Ok? ==> r == Ok((OutputPath(req.filename, outputPath), read.value))))
  {
    match ParseShareString(shareString)
    case Err(e) => Err(e)
    case Ok(req) =>
      var finalOutputPath := OutputPath(req.filename, outputPath);
      match o.fetchRaw(req.username, SharedPath(req.reference))
      case Err(cause) => Err(FetchFailed(cause))
      case Ok(pointerData) =>
        match o.decrypt(pointerData, req.sharePassword)
        case None => Err(InvalidSharePassword)
        case Some(decryptedPointer) =>
          match o.parsePointer(decryptedPointer)
          case None => Err(InvalidPointerFormat)
          case Some(fields) =>
            if "storageID" !in fields then Err(PointerMissingStorageId)
            else if "fileKey" !in fields then Err(PointerMissingFileKey)
            else
              var storageId := fields["storageID"];
              match OpenStoredFile(o, req.username, req.sharePassword, storageId, fields["fileKey"], storageId)
              case Err(fe) => Err(FileFailed(fe))
              case Ok(data) => Ok((finalOutputPath, data))
  }

  /** Whose files a directory download reads, and the vault path of the folder it starts from. */
  datatype Reader = Reader(username: string, password: string, root: string)

  /**
   * One file written to disk by DownloadDirectory: the node reached (its keys below the
   * downloaded folder are also its local path below the output directory), its vault
   * path, and the plaintext written.
   */
  datatype Saved = Saved(node: Node, path: string, data: Bytes)

  /** What the walk updates in place: the files written so far, in order, and the file counter. */
  datatype Progress = Progress(written: seq<Saved>, fileCount: int)

  /** How reading the file node `n` fails, if it does. */
  function ReadFailure(o: Oracles, r: Reader, n: Node): Option<FileError>
  {
    match OpenStoredFile(o, r.username, r.password, n.1.RealName, n.1.FileKey, PathFrom(r.root, n.0))
    case Err(fe) => Some(fe)
    case Ok(_) => None
  }

  /** `err` is how reading one of `nodes` fails. */
  ghost predicate ReadFailsAmong(o: Oracles, r: Reader, nodes: set<Node>, err: Option<FileError>)
  {
    exists n :: n in nodes && ReadFailure(o, r, n) == err
  }

  /** `s` records a file that was fetched and decrypted with the owner's password. */
  ghost predicate WasRead(o: Oracles, r: Reader, s: Saved)
  {
    var e := s.node.1;
    s.path == PathFrom(r.root, s.node.0)
    && OpenStoredFile(o, r.username, r.password, e.RealName, e.FileKey, s.path) == Ok(s.data)
  }

  ghost predicate AllRead(o: Oracles, r: Reader, log: seq<Saved>)
    decreases |log|
  {
    log == [] || (AllRead(o, r, log[..|log| - 1]) && WasRead(o, r, log[|log| - 1]))
  }

  lemma {:induction false} AllReadMeans(o: Oracles, r: Reader, log: seq<Saved>)
    requires AllRead(o, r, log)
    ensures forall s | s in log :: WasRead(o, r, s)
    decreases |log|
  {
    if log != [] {
      AllReadMeans(o, r, log[..|log| - 1]);
      assert log == log[..|log| - 1] + [log[|log| - 1]];
    }
  }

  ghost function SavedNodes(log: seq<Saved>): set<Node>
  {
    set s | s in log :: s.node
  }

  /**
   * The walk so far: `log` wrote each node of `reached` exactly once, and `acc` is `start`
   * with those writes appended and counted.
   */
  ghost predicate Downloads(o: Oracles, r: Reader, start: Progress, log: seq<Saved>, reached: set<Node>, acc: Progress)
  {
    AllRead(o, r, log) && SavedNodes(log) == reached && |SavedNodes(log)| == |log|
    && acc.written == start.written + log && acc.fileCount == start.fileCount + |log|
  }

  /** Two logs that each write their nodes once, and share none, together write their nodes once. */
  lemma SavedNodesAppend(a: seq<Saved>, b: seq<Saved>)
    requires |SavedNodes(a)| == |a| && |SavedNodes(b)| == |b| && SavedNodes(a) !! SavedNodes(b)
    ensures SavedNodes(a + b) == SavedNodes(a) + SavedNodes(b)
    ensures |SavedNodes(a + b)| == |a + b|
  {
    forall n | n in SavedNodes(a + b) ensures n in SavedNodes(a) + SavedNodes(b) {
      var s :| s in a + b && s.node == n;
    }
  }

  lemma {:induction false} AllReadAppend(o: Oracles, r: Reader, a: seq<Saved>, b: seq<Saved>)
    requires AllRead(o, r, a) && AllRead(o, r, b)
    ensures AllRead(o, r, a + b)
    decreases |b|
  {
    if b == [] {
      assert a + b == a;
    } else {
      assert (a + b)[..|a + b| - 1] == a + b[..|b| - 1];
      AllReadAppend(o, r, a, b[..|b| - 1]);
    }
  }

  /** Downloading one part after another writes what downloading both does, when the parts are disjoint. */
  lemma DownloadsAppend(o: Oracles, r: Reader, start: Progress, log: seq<Saved>, reached: set<Node>,
                        mid: Progress, more: seq<Saved>, part: set<Node>, acc: Progress)
    requires Downloads(o, r, start, log, reached, mid) && Downloads(o, r, mid, more, part, acc) && reached !! part
    ensures Downloads(o, r, start, log + more, reached + part, acc)
  {
    SavedNodesAppend(log, more);
    AllReadAppend(o, r, log, more);
    ProgressAppend(start, log, mid, more, acc);
  }

  /** Appending the writes of one part and then of another is appending both at once. */
  lemma ProgressAppend(start: Progress, log: seq<Saved>, mid: Progress, more: seq<Saved>, acc: Progress)
    requires mid.written == start.written + log && mid.fileCount == start.fileCount + |log|
    requires acc.written == mid.written + more && acc.fileCount == mid.fileCount + |more|
    ensures acc.written == start.written + (log + more) && acc.fileCount == start.fileCount + |log + more|
  {
  }

  lemma ReadFailsAmongMore(o: Oracles, r: Reader, nodes: set<Node>, more: set<Node>, err: Option<FileError>)
    requires ReadFailsAmong(o, r, nodes, err) && nodes <= more
    ensures ReadFailsAmong(o, r, more, err)
  {
    var n :| n in nodes && ReadFailure(o, r, n) == err;
    assert n in more;
  }

  /**
   * The child `entry` with vault path `nextPath`, as the range loop of downloadFiles
   * treats it: counted, read and written if it is a file, walked if it is a folder,
   * skipped otherwise.
   */
  method DownloadEntry(o: Oracles, r: Reader, entry: Entry, nextPath: string, keys: seq<string>, acc: Progress)
    returns (acc': Progress, err: Option<FileError>, ghost log: seq<Saved>)
    requires nextPath == PathFrom(r.root, keys)
    ensures err == None ==> Downloads(o, r, acc, log, FileNodesAt(entry, keys), acc')
    ensures err != None ==> ReadFailsAmong(o, r, FileNodesAt(entry, keys), err)
    decreases entry, 2
  {
    acc', err, log := acc, None, [];
    if entry.Type == FileType {
      acc' := acc'.(fileCount := acc'.fileCount + 1);
      var fetched := OpenStoredFile(o, r.username, r.password, entry.RealName, entry.FileKey, nextPath);
      if fetched.Err? {
        err := Some(fetched.error);
        assert ReadFailure(o, r, (keys, entry)) == err;
        assert (keys, entry) in FileNodesAt(entry, keys);
        return;
      }
      var s := Saved((keys, entry), nextPath, fetched.value);
      acc' := acc'.(written := acc'.written + [s]);
      log := [s];
      assert SavedNodes(log) == {s.node};
    } else if entry.Type == FolderType {
      acc', err, log := DownloadFiles(o, r, entry, nextPath, keys, acc);
    }
  }

  /**
   * One turn of the range loop over the children of `dir`: walk child `name`, given
   * that `log` wrote the files of the children `done`.
   */
  method DownloadChild(o: Oracles, r: Reader, dir: Entry, currentPath: string, keys: seq<string>,
                       name: string, ghost done: set<string>, ghost start: Progress, ghost log: seq<Saved>,
                       acc: Progress)
    returns (acc': Progress, err: Option<FileError>, ghost log': seq<Saved>)
    requires currentPath == PathFrom(r.root, keys)
    requires done <= dir.Contents.Keys && name in dir.Contents && name !in done
    requires Downloads(o, r, start, log, FileNodesOver(dir, done, keys), acc)
    ensures err == None ==> Downloads(o, r, start, log', FileNodesOver(dir, done + {name}, keys), acc')
    ensures err != None ==> ReadFailsAmong(o, r, FileNodes(dir, keys), err)
    decreases dir, 0
  {
    var nextPath := if currentPath == "" then name else currentPath + "/" + name;
    PathFromChild(r.root, keys, name);
    WalkStep(dir, done, name, keys);
    ghost var childLog: seq<Saved>;
    acc', err, childLog := DownloadEntry(o, r, dir.Contents[name], nextPath, keys + [name], acc);
    log' := log + childLog;
    if err == None {
      DownloadsAppend(o, r, start, log, FileNodesOver(dir, done, keys), acc, childLog,
                      FileNodesAt(dir.Contents[name], keys + [name]), acc');
    } else {
      ReadFailsAmongMore(o, r, FileNodesAt(dir.Contents[name], keys + [name]), FileNodes(dir, keys), err);
    }
  }

  /**
   * downloadFiles: write every file below `dir`, whose own vault path is `currentPath`,
   * and stop at the first file that cannot be read. On success the files written are
   * each reachable file node exactly once, with its decrypted contents, and the counter
   * grew by their number; on failure the error is that of a reachable file.
   */
  method DownloadFiles(o: Oracles, r: Reader, dir: Entry, currentPath: string, keys: seq<string>, start: Progress)
    returns (acc: Progress, err: Option<FileError>, ghost log: seq<Saved>)
    requires currentPath == PathFrom(r.root, keys)
    ensures err == None ==> Downloads(o, r, start, log, FileNodes(dir, keys), acc)
    ensures err != None ==> ReadFailsAmong(o, r, FileNodes(dir, keys), err)
    decreases dir, 1
  {
    acc, log := start, [];
    var remaining := dir.Contents.Keys;
    ghost var done: set<string> := {};
    while remaining != {}
      invariant done + remaining == dir.Contents.Keys && done !! remaining
      invariant Downloads(o, r, start, log, FileNodesOver(dir, done, keys), acc)
      decreases remaining
    {
      var name :| name in remaining;
      acc, err, log := DownloadChild(o, r, dir, currentPath, keys, name, done, start, log, acc);
      if err != None {
        return;
      }
      MoveName(done, remaining, name, dir.Contents.Keys);
      remaining := remaining - {name};
      done := done + {name};
    }
    err := None;
    assert done == dir.Contents.Keys;
  }

  /**
   * DownloadDirectory: find the folder, walk it from its own vault path, and report the
   * files written. A missing path, a path that is not a folder, the first unreadable file
   * and a folder with no files below it are errors, in that order.
   */
  method DownloadDirectory(o: Oracles, index: Index, username: string, password: string, vaultPath: string)
    returns (err: Option<Error>, written: seq<Saved>, fileCount: int)
    ensures o.findEntry(index, vaultPath).None? <==> err == Some(NotFound(vaultPath))
    ensures err == Some(NotADirectory(vaultPath)) <==>
            o.findEntry(index, vaultPath).Some? && o.findEntry(index, vaultPath).value.Type != FolderType
    ensures err.Some? && err.value.FileFailed? ==>
            ReadFailsAmong(o, Reader(username, password, vaultPath),
                           FileNodes(o.findEntry(index, vaultPath).value, []), Some(err.value.failure))
    ensures err == Some(NoFilesInDirectory(vaultPath)) ==>
            o.findEntry(index, vaultPath).Some? && FileNodes(o.findEntry(index, vaultPath).value, []) == {}
    ensures err.Some? ==> err.value in {NotFound(vaultPath), NotADirectory(vaultPath), NoFilesInDirectory(vaultPath)}
                          || err.value.FileFailed?
    ensures err == None ==>
      var dir := o.findEntry(index, vaultPath).value;
      o.findEntry(index, vaultPath).Some? && dir.Type == FolderType
      && AllRead(o, Reader(username, password, vaultPath), written)
      && SavedNodes(written) == FileNodes(dir, [])
      && fileCount == |written| == |SavedNodes(written)| > 0
  {
    written, fileCount := [], 0;
    var found := o.findEntry(index, vaultPath);
    if found.None? {
      return Some(NotFound(vaultPath)), written, fileCount;
    }
    var dir := found.value;
    if dir.Type != FolderType {
      return Some(NotADirectory(vaultPath)), written, fileCount;
    }
    var r := Reader(username, password, vaultPath);
    var acc, walkErr, log := DownloadFiles(o, r, dir, vaultPath, [], Progress([], 0));
    if walkErr != None {
      return Some(FileFailed(walkErr.value)), written, fileCount;
    }
    written, fileCount := acc.written, acc.fileCount;
    assert written == log;
    if fileCount == 0 {
      return Some(NoFilesInDirectory(vaultPath)), written, fileCount;
    }
    err := None;
  }
}
