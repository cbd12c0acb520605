/**
 * Vault transfer: every file of a source vault is decrypted, given a fresh storage
 * name and a fresh file key, re-encrypted for the destination, and the lot is pushed
 * to the destination in one commit together with a new destination index.
 */
module Transfer {
  import opened Wrappers
  import opened Text
  import opened VaultIndex
  import opened Errors
  import opened Oracles
  import opened FileAccess
  import opened Backend
  import Hex

  const TransferMessage := "Zephyrus: Vault Transfer"
  const TransferAuthor := Signature("Zephyrus", "auchrio@proton.me")
  /** Where the destination's wrapped SSH key lives. */
  const KeyBlob := ".config/key"

  /** Who a transfer reads as and writes for. */
  datatype Credentials = Credentials(sourceUser: string, sourcePassword: string, destPassword: string)

  /** One file carried over: the source node, its vault path, its plaintext, and what the destination receives. */
  datatype Transferred = Transferred(
    node: Node, path: string, plain: Bytes,
    storageName: string, newKey: Bytes, keyHex: string, blob: Bytes)

  /** The three things the walk updates in place: the destination index, the files to push and the file counter. */
  datatype Collected = Collected(destIndex: Index, filesToTransfer: map<string, Bytes>, fileCount: int)

  /** Why carrying over the file entry `e` at `path` with the fresh key `newKey` fails, in the order the steps run. */
  function CarryFailure(o: Oracles, c: Credentials, e: Entry, path: string, newKey: Bytes): Option<FileError>
  {
    match OpenStoredFile(o, c.sourceUser, c.sourcePassword, e.RealName, e.FileKey, path)
    case Err(fe) => Some(fe)
    case Ok(plain) =>
      if o.encrypt(newKey, c.destPassword).None? then Some(NewKeyEncryptFailed(path))
      else if o.encryptWithKey(plain, newKey).None? then Some(ReencryptFailed(path))
      else None
  }

  /** `err` is how carrying over one of `nodes` fails, for some fresh key. */
  ghost predicate FailsAmong(o: Oracles, c: Credentials, nodes: set<Node>, err: Option<FileError>)
  {
    exists n, k :: n in nodes && CarryFailure(o, c, n.1, PathFrom("", n.0), k) == err
  }

  /** `t` records a file that was read from the source and re-encrypted for the destination. */
  ghost predicate Carried(o: Oracles, c: Credentials, t: Transferred)
  {
    var e := t.node.1;
    t.path == PathFrom("", t.node.0)
    && OpenStoredFile(o, c.sourceUser, c.sourcePassword, e.RealName, e.FileKey, t.path) == Ok(t.plain)
    && o.encrypt(t.newKey, c.destPassword).Some?
    && t.keyHex == Hex.Encode(o.encrypt(t.newKey, c.destPassword).value)
    && o.encryptWithKey(t.plain, t.newKey) == Some(t.blob)
  }

  ghost predicate AllCarried(o: Oracles, c: Credentials, log: seq<Transferred>)
    decreases |log|
  {
    log == [] || (AllCarried(o, c, log[..|log| - 1]) && Carried(o, c, log[|log| - 1]))
  }

  lemma {:induction false} AllCarriedAppend(o: Oracles, c: Credentials, a: seq<Transferred>, b: seq<Transferred>)
    requires AllCarried(o, c, a) && AllCarried(o, c, b)
    ensures AllCarried(o, c, a + b)
    decreases |b|
  {
    if b == [] {
      assert a + b == a;
    } else {
      assert (a + b)[..|a + b| - 1] == a + b[..|b| - 1];
      AllCarriedAppend(o, c, a, b[..|b| - 1]);
    }
  }

  lemma {:induction false} AllCarriedMeans(o: Oracles, c: Credentials, log: seq<Transferred>)
    requires AllCarried(o, c, log)
    ensures forall t | t in log :: Carried(o, c, t)
    decreases |log|
  {
    if log != [] {
      AllCarriedMeans(o, c, log[..|log| - 1]);
      assert log == log[..|log| - 1] + [log[|log| - 1]];
    }
  }

  ghost function Nodes(log: seq<Transferred>): set<Node>
  {
    set t | t in log :: t.node
  }

  /** The destination index after AddFile(path, storageName, keyHex) for each logged file in turn. */
  function AddAll(o: Oracles, index: Index, log: seq<Transferred>): Index
    decreases |log|
  {
    if log == [] then index
    else
      var t := log[|log| - 1];
      o.addFileWithKey(AddAll(o, index, log[..|log| - 1]), t.path, t.storageName, t.keyHex)
  }

  /** The files to push after filesToTransfer[storageName] = blob for each logged file in turn. */
  function StoreAll(files: map<string, Bytes>, log: seq<Transferred>): map<string, Bytes>
    decreases |log|
  {
    if log == [] then files
    else
      var t := log[|log| - 1];
      StoreAll(files, log[..|log| - 1])[t.storageName := t.blob]
  }

  /** What the walk has collected once it has carried over the files of `log`, starting from `start`. */
  function Collect(o: Oracles, start: Collected, log: seq<Transferred>): Collected
  {
    Collected(AddAll(o, start.destIndex, log), StoreAll(start.filesToTransfer, log), start.fileCount + |log|)
  }

  /**
   * The walk so far: `log` carried over each node of `reached` exactly once, and `acc` is
   * what was collected from `start` by doing so.
   */
  ghost predicate Collects(o: Oracles, c: Credentials, start: Collected, log: seq<Transferred>,
                           reached: set<Node>, acc: Collected)
  {
    AllCarried(o, c, log) && Nodes(log) == reached && |Nodes(log)| == |log| && acc == Collect(o, start, log)
  }

  lemma {:induction false} AddAllAppend(o: Oracles, index: Index, a: seq<Transferred>, b: seq<Transferred>)
    ensures AddAll(o, index, a + b) == AddAll(o, AddAll(o, index, a), b)
    decreases |b|
  {
    if b != [] {
      assert (a + b)[..|a + b| - 1] == a + b[..|b| - 1];
      AddAllAppend(o, index, a, b[..|b| - 1]);
    } else {
      assert a + b == a;
    }
  }

  lemma {:induction false} StoreAllAppend(files: map<string, Bytes>, a: seq<Transferred>, b: seq<Transferred>)
    ensures StoreAll(files, a + b) == StoreAll(StoreAll(files, a), b)
    decreases |b|
  {
    if b != [] {
      assert (a + b)[..|a + b| - 1] == a + b[..|b| - 1];
      StoreAllAppend(files, a, b[..|b| - 1]);
    } else {
      assert a + b == a;
    }
  }

  lemma NodesAppend(a: seq<Transferred>, b: seq<Transferred>)
    ensures Nodes(a + b) == Nodes(a) + Nodes(b)
  {
    forall n | n in Nodes(a + b) ensures n in Nodes(a) + Nodes(b) {
      var t :| t in a + b && t.node == n;
    }
  }

  /** Walking one part after another collects what walking both at once does, when the parts are disjoint. */
  lemma CollectsAppend(o: Oracles, c: Credentials, start: Collected, log: seq<Transferred>, reached: set<Node>,
                       mid: Collected, more: seq<Transferred>, part: set<Node>, acc: Collected)
    requires Collects(o, c, start, log, reached, mid) && Collects(o, c, mid, more, part, acc) && reached !! part
    ensures Collects(o, c, start, log + more, reached + part, acc)
  {
    NodesAppend(log, more);
    AllCarriedAppend(o, c, log, more);
    AddAllAppend(o, start.destIndex, log, more);
    StoreAllAppend(start.filesToTransfer, log, more);
  }

  /** Failing among fewer nodes is failing among more. */
  lemma FailsAmongMore(o: Oracles, c: Credentials, nodes: set<Node>, more: set<Node>, err: Option<FileError>)
    requires FailsAmong(o, c, nodes, err) && nodes <= more
    ensures FailsAmong(o, c, more, err)
  {
    var n, k :| n in nodes && CarryFailure(o, c, n.1, PathFrom("", n.0), k) == err;
    assert n in more;
  }

  /**
   * The body of the walk for one file entry: read it from the source, draw a fresh
   * storage name and file key, wrap the key for the destination and re-encrypt.
   */
  method CarryFile(o: Oracles, c: Credentials, entry: Entry, path: string, ghost keys: seq<string>)
    returns (err: Option<FileError>, storageName: string, keyHex: string, blob: Bytes, ghost t: Transferred)
    requires path == PathFrom("", keys)
    ensures err == None ==>
      Carried(o, c, t) && t.node == (keys, entry) && t.path == path
      && t.storageName == storageName && t.keyHex == keyHex && t.blob == blob
    ensures err != None ==> exists k :: CarryFailure(o, c, entry, path, k) == err
  {
    storageName, keyHex, blob := "", "", [];
    t := Transferred((keys, entry), path, [], "", [], "", []);
    var fetched := OpenStoredFile(o, c.sourceUser, c.sourcePassword, entry.RealName, entry.FileKey, path);
    if fetched.Err? {
      err := Some(fetched.error);
      assert CarryFailure(o, c, entry, path, []) == err;
      return;
    }
    storageName :| true;
    var newKey: Bytes :| true;
    var wrapped := o.encrypt(newKey, c.destPassword);
    if wrapped.None? {
      err := Some(NewKeyEncryptFailed(path));
      assert CarryFailure(o, c, entry, path, newKey) == err;
      return;
    }
    keyHex := Hex.Encode(wrapped.value);
    var sealed := o.encryptWithKey(fetched.value, newKey);
    if sealed.None? {
      err := Some(ReencryptFailed(path));
      assert CarryFailure(o, c, entry, path, newKey) == err;
      return;
    }
    blob := sealed.value;
    err := None;
    t := Transferred((keys, entry), path, fetched.value, storageName, newKey, keyHex, blob);
  }

  /**
   * The child `entry` with vault path `nextPath`, as the range loop of
   * transferFilesRecursive treats it: carried over if it is a file, walked if it is a
   * folder, skipped otherwise.
   */
  method TransferEntry(o: Oracles, c: Credentials, entry: Entry, nextPath: string, ghost keys: seq<string>, acc: Collected)
    returns (acc': Collected, err: Option<FileError>, ghost log: seq<Transferred>)
    requires nextPath == PathFrom("", keys)
    ensures err == None ==> Collects(o, c, acc, log, FileNodesAt(entry, keys), acc')
    ensures err != None ==> FailsAmong(o, c, FileNodesAt(entry, keys), err)
    decreases entry, 2
  {
    acc', err, log := acc, None, [];
    if entry.Type == FileType {
      acc' := acc'.(fileCount := acc'.fileCount + 1);
      var storageName, keyHex, blob;
      ghost var t;
      err, storageName, keyHex, blob, t := CarryFile(o, c, entry, nextPath, keys);
      if err != None {
        ghost var k :| CarryFailure(o, c, entry, nextPath, k) == err;
        assert (keys, entry) in FileNodesAt(entry, keys);
        return;
      }
      acc' := acc'.(destIndex := o.addFileWithKey(acc'.destIndex, nextPath, storageName, keyHex),
                    filesToTransfer := acc'.filesToTransfer[storageName := blob]);
      assert [t][..0] == [];
      assert AddAll(o, acc.destIndex, [t]) == acc'.destIndex;
      assert StoreAll(acc.filesToTransfer, [t]) == acc'.filesToTransfer;
      log := [t];
      assert Nodes(log) == {t.node};
    } else if entry.Type == FolderType {
      acc', err, log := TransferFiles(o, c, entry, nextPath, keys, acc);
    }
  }

  /**
   * One turn of the range loop over the children of `dir`: walk child `name`, given
   * that `log` carried over the files of the children `done`.
   */
  method TransferChild(o: Oracles, c: Credentials, dir: Entry, currentPath: string, ghost keys: seq<string>,
                       name: string, ghost done: set<string>, ghost start: Collected, ghost log: seq<Transferred>,
                       acc: Collected)
    returns (acc': Collected, err: Option<FileError>, ghost log': seq<Transferred>)
    requires currentPath == PathFrom("", keys)
    requires done <= dir.Contents.Keys && name in dir.Contents && name !in done
    requires Collects(o, c, start, log, FileNodesOver(dir, done, keys), acc)
    ensures err == None ==> Collects(o, c, start, log', FileNodesOver(dir, done + {name}, keys), acc')
    ensures err != None ==> FailsAmong(o, c, FileNodes(dir, keys), err)
    decreases dir, 0
  {
    var nextPath := if currentPath == "" then name else currentPath + "/" + name;
    PathFromChild("", keys, name);
    WalkStep(dir, done, name, keys);
    ghost var childLog: seq<Transferred>;
    acc', err, childLog := TransferEntry(o, c, dir.Contents[name], nextPath, keys + [name], acc);
    log' := log + childLog;
    if err == None {
      CollectsAppend(o, c, start, log, FileNodesOver(dir, done, keys), acc, childLog,
                     FileNodesAt(dir.Contents[name], keys + [name]), acc');
    } else {
      FailsAmongMore(o, c, FileNodesAt(dir.Contents[name], keys + [name]), FileNodes(dir, keys), err);
    }
  }

  /**
   * transferFilesRecursive: carry over every file below `dir`, whose own vault path is
   * `currentPath`, and stop at the first file that fails.
   *
   * On success the log holds each reachable file node exactly once, and the destination
   * index, the files to push and the counter are those of one AddFile, one stored blob
   * and one increment per logged file. On failure the error is that of a reachable file.
   */
  method TransferFiles(o: Oracles, c: Credentials, dir: Entry, currentPath: string, ghost keys: seq<string>, start: Collected)
    returns (acc: Collected, err: Option<FileError>, ghost log: seq<Transferred>)
    requires currentPath == PathFrom("", keys)
    ensures err == None ==> Collects(o, c, start, log, FileNodes(dir, keys), acc)
    ensures err != None ==> FailsAmong(o, c, FileNodes(dir, keys), err)
    decreases dir, 1
  {
    acc, log := start, [];
    var remaining := dir.Contents.Keys;
    ghost var done: set<string> := {};
    while remaining != {}
      invariant done + remaining == dir.Contents.Keys && done !! remaining
      invariant Collects(o, c, start, log, FileNodesOver(dir, done, keys), acc)
      decreases remaining
    {
      var name :| name in remaining;
      acc, err, log := TransferChild(o, c, dir, currentPath, keys, name, done, start, log, acc);
      if err != None {
        return;
      }
      MoveName(done, remaining, name, dir.Contents.Keys);
      remaining := remaining - {name};
      done := done + {name};
    }
    err := None;
    assert done == dir.Contents.Keys;
  }

  /** The storage names the walk drew are pairwise different. */
  predicate DistinctNames(log: seq<Transferred>)
  {
    forall i, j | 0 <= i < j < |log| :: log[i].storageName != log[j].storageName
  }

  ghost function Names(log: seq<Transferred>): set<string>
  {
    set t | t in log :: t.storageName
  }

  lemma NamesOfLonger(init: seq<Transferred>, t: Transferred)
    ensures Names(init + [t]) == Names(init) + {t.storageName}
  {
    assert forall u | u in init + [t] :: u in init || u == t;
  }

  /** The files to push gain exactly the drawn storage names as keys. */
  lemma {:induction false} StoreAllKeys(files: map<string, Bytes>, log: seq<Transferred>)
    ensures StoreAll(files, log).Keys == files.Keys + Names(log)
    decreases |log|
  {
    if log != [] {
      var init := log[..|log| - 1];
      assert log == init + [log[|log| - 1]];
      NamesOfLonger(init, log[|log| - 1]);
      StoreAllKeys(files, init);
    }
  }

  /** The last name drawn is new, and the earlier ones are pairwise different too. */
  lemma LastNameIsNew(log: seq<Transferred>)
    requires log != [] && DistinctNames(log)
    ensures log[|log| - 1].storageName !in Names(log[..|log| - 1])
    ensures DistinctNames(log[..|log| - 1])
  {
    var init := log[..|log| - 1];
    forall u | u in init ensures u.storageName != log[|log| - 1].storageName {
      var i :| 0 <= i < |init| && init[i] == u;
      assert log[i] == u;
    }
  }

  /** With pairwise different names, there are as many names as carried files. */
  lemma {:induction false} DistinctNamesCount(log: seq<Transferred>)
    requires DistinctNames(log)
    ensures |Names(log)| == |log|
    decreases |log|
  {
    if log != [] {
      var init := log[..|log| - 1];
      assert log == init + [log[|log| - 1]];
      LastNameIsNew(log);
      NamesOfLonger(init, log[|log| - 1]);
      DistinctNamesCount(init);
    }
  }

  /** With pairwise different names, each carried file's blob is stored under its own name. */
  lemma {:induction false} StoreAllValues(files: map<string, Bytes>, log: seq<Transferred>)
    requires DistinctNames(log)
    ensures forall t | t in log :: t.storageName in StoreAll(files, log) && StoreAll(files, log)[t.storageName] == t.blob
    decreases |log|
  {
    if log != [] {
      var init := log[..|log| - 1];
      var last := log[|log| - 1];
      assert log == init + [last];
      LastNameIsNew(log);
      StoreAllValues(files, init);
      forall t | t in log ensures t.storageName in StoreAll(files, log) && StoreAll(files, log)[t.storageName] == t.blob {
        if t != last {
          assert t in init;
          assert t.storageName in Names(init);
        }
      }
    }
  }

  /** What TransferVault pushes: the carried blobs and, under the index blob name, the encrypted destination index. */
  function Package(files: map<string, Bytes>, indexBytes: Bytes): (p: map<string, Bytes>)
    ensures IndexBlob in p && p[IndexBlob] == indexBytes
    ensures p.Keys == files.Keys + {IndexBlob}
    ensures forall k | k in files && k != IndexBlob :: p[k] == files[k]
  {
    files[IndexBlob := indexBytes]
  }

  /**
   * When no drawn storage name is the index blob's name and no two are equal, the push
   * holds one blob per carried file plus exactly one index entry.
   */
  lemma PackageHoldsEachFileOnce(log: seq<Transferred>, indexBytes: Bytes)
    requires DistinctNames(log) && forall t | t in log :: t.storageName != IndexBlob
    ensures |Package(StoreAll(map[], log), indexBytes)| == |log| + 1
    ensures forall t | t in log :: t.storageName in Package(StoreAll(map[], log), indexBytes)
                                   && Package(StoreAll(map[], log), indexBytes)[t.storageName] == t.blob
  {
    StoreAllKeys(map[], log);
    DistinctNamesCount(log);
    StoreAllValues(map[], log);
    var files := StoreAll(map[], log);
    assert IndexBlob !in files;
    assert Package(files, indexBytes).Keys == files.Keys + {IndexBlob};
    forall t | t in log ensures t.storageName in Package(files, indexBytes) && Package(files, indexBytes)[t.storageName] == t.blob {
      assert t.storageName in Names(log);
    }
  }

  /** The steps before the walk succeed: the source session opens and the destination's key is fetched and unwrapped. */
  ghost predicate Authenticated(o: Oracles, sourceUsername: string, sourcePassword: string,
                                destUsername: string, destPassword: string)
  {
    o.fetchSession(sourceUsername, sourcePassword).Some? && o.fetchRaw(destUsername, KeyBlob).Ok?
    && o.decrypt(o.fetchRaw(destUsername, KeyBlob).value, destPassword).Some?
  }

  /** `log` carried over every file reachable in the source index exactly once, and there was at least one. */
  ghost predicate WalkedAll(o: Oracles, c: Credentials, src: SourceSession, log: seq<Transferred>)
  {
    AllCarried(o, c, log) && Nodes(log) == FileNodes(Root(src.Index), []) && |Nodes(log)| == |log| > 0
  }

  /** The errors TransferVault returns. */
  predicate TransferError(e: Error)
  {
    e.SourceAuthFailed? || e.DestinationNotFound? || e.DestinationKeyDecryptFailed? || e.ProcessFilesFailed?
    || e.NoFilesInSource? || e.IndexEncryptFailed? || e.PushFailed?
  }

  /**
   * TransferVault: authenticate with the source, unwrap the destination's key, walk the
   * whole source index, and push every carried file plus a new destination index to the
   * destination in one commit. Nothing is pushed unless every earlier step succeeded.
   */
  method TransferVault(o: Oracles, sourceUsername: string, sourcePassword: string,
                       destUsername: string, destPassword: string, dest: Remote, pushAccepted: bool)
    returns (err: Option<Error>, ghost log: seq<Transferred>)
    modifies dest
    ensures err != None ==> unchanged(dest) && TransferError(err.value)
    ensures o.fetchSession(sourceUsername, sourcePassword).None? <==> err == Some(SourceAuthFailed)
    ensures o.fetchSession(sourceUsername, sourcePassword).Some? && o.fetchRaw(destUsername, KeyBlob).Err? ==>
      err == Some(DestinationNotFound(o.fetchRaw(destUsername, KeyBlob).error))
    ensures err != None && err.value.DestinationNotFound? ==>
      o.fetchSession(sourceUsername, sourcePassword).Some? && o.fetchRaw(destUsername, KeyBlob).Err?
    ensures o.fetchSession(sourceUsername, sourcePassword).Some? && o.fetchRaw(destUsername, KeyBlob).Ok?
            && o.decrypt(o.fetchRaw(destUsername, KeyBlob).value, destPassword).None? <==>
      err == Some(DestinationKeyDecryptFailed)
    ensures err != None && (err.value.ProcessFilesFailed? || err.value.NoFilesInSource?
                            || err.value.IndexEncryptFailed? || err.value.PushFailed?) ==>
      Authenticated(o, sourceUsername, sourcePassword, destUsername, destPassword)
    ensures err != None && err.value.ProcessFilesFailed? ==>
      var src := o.fetchSession(sourceUsername, sourcePassword).value;
      FailsAmong(o, Credentials(src.Username, sourcePassword, destPassword), FileNodes(Root(src.Index), []), Some(err.value.failure))
    ensures Authenticated(o, sourceUsername, sourcePassword, destUsername, destPassword) ==>
      (FileNodes(Root(o.fetchSession(sourceUsername, sourcePassword).value.Index), []) == {} <==> err == Some(NoFilesInSource))
    ensures err == Some(IndexEncryptFailed) ==>
      var src := o.fetchSession(sourceUsername, sourcePassword).value;
      WalkedAll(o, Credentials(src.Username, sourcePassword, destPassword), src, log)
      && o.toBytes(AddAll(o, NewIndex(), log), destPassword).None?
    ensures err == Some(PushFailed) ==>
      var src := o.fetchSession(sourceUsername, sourcePassword).value;
      WalkedAll(o, Credentials(src.Username, sourcePassword, destPassword), src, log)
      && o.toBytes(AddAll(o, NewIndex(), log), destPassword).Some? && !pushAccepted
    ensures err == None ==>
      var src := o.fetchSession(sourceUsername, sourcePassword).value;
      var indexBytes := o.toBytes(AddAll(o, NewIndex(), log), destPassword);
      Authenticated(o, sourceUsername, sourcePassword, destUsername, destPassword)
      && WalkedAll(o, Credentials(src.Username, sourcePassword, destPassword), src, log)
      && pushAccepted && indexBytes.Some?
      && dest.Blobs == old(dest.Blobs) + Package(StoreAll(map[], log), indexBytes.value)
      && dest.History == old(dest.History) + [Commit(TransferMessage, Some(TransferAuthor))]
  {
    log := [];
    var session := o.fetchSession(sourceUsername, sourcePassword);
    if session.None? {
      return Some(SourceAuthFailed), log;
    }
    var encryptedDestKey := o.fetchRaw(destUsername, KeyBlob);
    if encryptedDestKey.Err? {
      return Some(DestinationNotFound(encryptedDestKey.error)), log;
    }
    var destRawKey := o.decrypt(encryptedDestKey.value, destPassword);
    if destRawKey.None? {
      return Some(DestinationKeyDecryptFailed), log;
    }
    var src := session.value;
    var c := Credentials(src.Username, sourcePassword, destPassword);
    var collected, walkErr;
    collected, walkErr, log := TransferFiles(o, c, Root(src.Index), "", [], Collected(NewIndex(), map[], 0));
    if walkErr != None {
      return Some(ProcessFilesFailed(walkErr.value)), log;
    }
    if collected.fileCount == 0 {
      assert |Nodes(log)| == 0;
      return Some(NoFilesInSource), log;
    }
    var destIndexBytes := o.toBytes(collected.destIndex, destPassword);
    if destIndexBytes.None? {
      return Some(IndexEncryptFailed), log;
    }
    var filesToTransfer := Package(collected.filesToTransfer, destIndexBytes.value);
    var pushed := dest.PushFiles(filesToTransfer, TransferMessage, Some(TransferAuthor), pushAccepted);
    if !pushed {
      return Some(PushFailed), log;
    }
    err := None;
  }
}
