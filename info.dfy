/** Vault statistics over the index tree, and the metadata shown for one file. */
module Info {
  import opened Wrappers
  import opened Text
  import opened VaultIndex
  import opened Errors
  import opened Oracles
  import opened Sessions

  /** VaultStats. TotalSize is declared by the source but never assigned. */
  datatype VaultStats = VaultStats(TotalFiles: int, TotalFolders: int, TotalSize: int)

  /** `stats` is `start` with the files and the folders among `nodes` counted. */
  ghost predicate Counted(stats: VaultStats, start: VaultStats, nodes: set<Node>)
  {
    stats.TotalFiles == start.TotalFiles + |FilesAmong(nodes)|
    && stats.TotalFolders == start.TotalFolders + |FoldersAmong(nodes)|
    && stats.TotalSize == start.TotalSize
  }

  lemma FilesAmongUnion(a: set<Node>, b: set<Node>)
    requires a !! b
    ensures |FilesAmong(a + b)| == |FilesAmong(a)| + |FilesAmong(b)|
    ensures |FoldersAmong(a + b)| == |FoldersAmong(a)| + |FoldersAmong(b)|
  {
    assert FilesAmong(a + b) == FilesAmong(a) + FilesAmong(b);
    assert FoldersAmong(a + b) == FoldersAmong(a) + FoldersAmong(b);
  }

  /** Counting two disjoint sets of nodes one after the other counts their union. */
  lemma CountedUnion(start: VaultStats, mid: VaultStats, stats: VaultStats, a: set<Node>, b: set<Node>)
    requires Counted(mid, start, a) && Counted(stats, mid, b) && a !! b
    ensures Counted(stats, start, a + b)
  {
    FilesAmongUnion(a, b);
  }

  /**
   * countEntries(e) for the entry `e` at `keys`: a file adds one file; anything else
   * adds one folder and counts every child.
   */
  method CountEntries(e: Entry, ghost keys: seq<string>, stats: VaultStats) returns (stats': VaultStats)
    ensures Counted(stats', stats, StatNodesAt(e, keys))
    decreases e, 1
  {
    if e.Type == FileType {
      stats' := stats.(TotalFiles := stats.TotalFiles + 1);
      assert FilesAmong({(keys, e)}) == {(keys, e)} && FoldersAmong({(keys, e)}) == {};
    } else {
      stats' := stats.(TotalFolders := stats.TotalFolders + 1);
      assert FilesAmong({(keys, e)}) == {} && FoldersAmong({(keys, e)}) == {(keys, e)};
      var inner := CountChildren(e, keys, stats');
      assert (keys, e) !in StatNodes(e, keys);
      CountedUnion(stats, stats', inner, {(keys, e)}, StatNodes(e, keys));
      stats' := inner;
    }
  }

  /** The range loop over the children of `dir`, counting each. */
  method CountChildren(dir: Entry, ghost keys: seq<string>, start: VaultStats) returns (stats: VaultStats)
    ensures Counted(stats, start, StatNodes(dir, keys))
    decreases dir, 0
  {
    stats := start;
    var remaining := dir.Contents.Keys;
    ghost var done: set<string> := {};
    while remaining != {}
      invariant done + remaining == dir.Contents.Keys && done !! remaining
      invariant Counted(stats, start, StatNodesOver(dir, done, keys))
      decreases remaining
    {
      var name :| name in remaining;
      var next := CountEntries(dir.Contents[name], keys + [name], stats);
      StatNodesStep(dir, done, name, keys);
      CountedUnion(start, stats, next, StatNodesOver(dir, done, keys), StatNodesAt(dir.Contents[name], keys + [name]));
      stats := next;
      MoveName(done, remaining, name, dir.Contents.Keys);
      remaining := remaining - {name};
      done := done + {name};
    }
    assert done == dir.Contents.Keys;
  }

  /**
   * GetVaultStats: every node below the top-level entries is counted once, as a file
   * when its Type is "file" and as a folder otherwise; the size stays zero.
   */
  method GetVaultStats(session: Session) returns (stats: VaultStats)
    ensures var nodes := StatNodes(Root(session.Index), []);
      stats.TotalFiles == |FilesAmong(nodes)| && stats.TotalFolders == |FoldersAmong(nodes)|
      && stats.TotalFiles + stats.TotalFolders == |nodes|
      && stats.TotalSize == 0
  {
    stats := CountChildren(Root(session.Index), [], VaultStats(0, 0, 0));
    FilesAndFoldersPartition(StatNodes(Root(session.Index), []));
  }

  /** The metadata GetFileInfo reports for a file. */
  datatype FileInfo = FileInfo(name: string, vaultPath: string, storageID: string, encryptedSize: int, fileKey: string)

  /** strings.Split(vaultPath, "/")[len-1]: the last segment of a vault path. */
  function BaseName(vaultPath: string): (name: string)
    ensures '/' !in name
    ensures |name| <= |vaultPath| && vaultPath[|vaultPath| - |name|..] == name
    ensures |name| < |vaultPath| ==> vaultPath[|vaultPath| - |name| - 1] == '/'
    ensures '/' !in vaultPath ==> name == vaultPath
  {
    var parts := Split(vaultPath, '/');
    JoinEndsWithLast(parts, '/');
    assert '/' !in vaultPath ==> parts == [vaultPath] by {
      if '/' !in vaultPath {
        SplitWithoutSeparator(vaultPath, '/');
      }
    }
    parts[|parts| - 1]
  }

  /**
   * GetFileInfo: a missing path, a folder and a failed fetch are errors; otherwise the
   * entry's storage id and wrapped key, the path's last segment and the size of the
   * stored blob.
   */
  function GetFileInfo(o: Oracles, index: Index, username: string, vaultPath: string): (r: Result<FileInfo, Error>)
    ensures o.findEntry(index, vaultPath).None? ==> r == Err(NotFound(vaultPath))
    ensures o.findEntry(index, vaultPath).Some? && o.findEntry(index, vaultPath).value.Type == FolderType
            ==> r == Err(IsDirectory(vaultPath))
    ensures o.findEntry(index, vaultPath).Some? && o.findEntry(index, vaultPath).value.Type != FolderType ==>
      var e := o.findEntry(index, vaultPath).value;
      var blob := o.fetchRaw(username, e.RealName);
      (blob.Err? ==> r == Err(FetchFailed(blob.error)))
      && (blob.Ok? ==> r.Ok? && r.value.vaultPath == vaultPath && r.value.storageID == e.RealName
                       && r.value.fileKey == e.FileKey && r.value.encryptedSize == |blob.value|
                       && r.value.name == BaseName(vaultPath))
  {
    match o.findEntry(index, vaultPath)
    case None => Err(NotFound(vaultPath))
    case Some(e) =>
      if e.Type == FolderType then Err(IsDirectory(vaultPath))
      else
        match o.fetchRaw(username, e.RealName)
        case Err(cause) => Err(FetchFailed(cause))
        case Ok(encryptedData) =>
          Ok(FileInfo(BaseName(vaultPath), vaultPath, e.RealName, |encryptedData|, e.FileKey))
  }
}
