/**
 * The vault's git remote as the operations see it: the blobs at the tip of the
 * master branch and the commits pushed so far. Every push publishes one commit,
 * all of its files or none of them.
 */
module Backend {
  import opened Wrappers
  import opened Text

  /** A commit author; None when the push helper picks its own. */
  datatype Signature = Signature(name: string, email: string)

  datatype Commit = Commit(message: string, author: Option<Signature>)

  class Remote {
    var Blobs: map<string, Bytes>
    var History: seq<Commit>

    constructor (blobs: map<string, Bytes>)
      ensures Blobs == blobs && History == []
    {
      Blobs := blobs;
      History := [];
    }

    /**
     * PushFiles / PushFilesWithAuthor: one commit that writes every file of `files`
     * over the current tip. `accepted` is the remote's verdict on the push.
     */
    method PushFiles(files: map<string, Bytes>, message: string, author: Option<Signature>, accepted: bool)
      returns (ok: bool)
      modifies this
      ensures ok == accepted
      ensures ok ==> Blobs == old(Blobs) + files && History == old(History) + [Commit(message, author)]
      ensures !ok ==> unchanged(this)
    {
      ok := accepted;
      if ok {
        Blobs := Blobs + files;
        History := History + [Commit(message, author)];
      }
    }

    /**
     * A clone, a removal of `removed` from the worktree, writes of `files`, one commit
     * and a push. Removing a blob that is not there leaves the tree as it is.
     */
    method PushRemoval(removed: string, files: map<string, Bytes>, message: string, author: Option<Signature>, accepted: bool)
      returns (ok: bool)
      modifies this
      ensures ok == accepted
      ensures ok ==> Blobs == (old(Blobs) - {removed}) + files && History == old(History) + [Commit(message, author)]
      ensures !ok ==> unchanged(this)
    {
      ok := accepted;
      if ok {
        Blobs := (Blobs - {removed}) + files;
        History := History + [Commit(message, author)];
      }
    }

    /** A fresh repository with one empty commit, force-pushed over master: the old tree and history are gone. */
    method ForcePushEmpty(message: string, author: Option<Signature>, accepted: bool) returns (ok: bool)
      modifies this
      ensures ok == accepted
      ensures ok ==> Blobs == map[] && History == [Commit(message, author)]
      ensures !ok ==> unchanged(this)
    {
      ok := accepted;
      if ok {
        Blobs := map[];
        History := [Commit(message, author)];
      }
    }
  }
}
