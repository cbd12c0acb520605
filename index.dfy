/**
 * The vault index: a map from names to entries, where a folder entry holds the
 * same kind of map for its children. Some operations read it as a flat map keyed
 * by whole vault paths, others walk it as a tree; both views are kept here as the
 * operations themselves use them.
 *
 * A node of the tree is identified by its key path, the sequence of map keys that
 * leads to it from the map where a walk starts. Key paths are unique even when two
 * nodes would print as the same '/'-joined vault path, so the number of nodes a
 * walk visits is the size of a set of key paths.
 */
module VaultIndex {
  import opened Text

  /** One index entry; Go's nil Contents map is the empty map here (ranging over both does nothing). */
  datatype Entry = Entry(Type: string, RealName: string, FileKey: string, Contents: map<string, Entry>)

  type Index = map<string, Entry>

  /** A reached node: its key path and its entry. */
  type Node = (seq<string>, Entry)

  const FileType := "file"
  const FolderType := "folder"

  /** The well-known blob that holds the encrypted index. */
  const IndexBlob := ".config/index"

  /** NewIndex(): an index with no entries. */
  function NewIndex(): (index: Index)
    ensures |index| == 0
  {
    map[]
  }

  /** A folder whose children are the whole index, so walks can start at the root. */
  function Root(index: Index): (root: Entry)
    ensures root.Type == FolderType && root.Contents == index
  {
    Entry(FolderType, "", "", index)
  }

  /** The vault path of child `name` under `current`: the name alone at the top, "current/name" below. */
  function ChildPath(current: string, name: string): string
  {
    if current == "" then name else current + "/" + name
  }

  /** The vault path a walk that starts at `base` gives the node at `keys`. */
  function PathFrom(base: string, keys: seq<string>): (p: string)
    ensures keys == [] ==> p == base
    decreases |keys|
  {
    if keys == [] then base
    else ChildPath(PathFrom(base, keys[..|keys| - 1]), keys[|keys| - 1])
  }

  lemma PathFromChild(base: string, keys: seq<string>, name: string)
    ensures PathFrom(base, keys + [name]) == ChildPath(PathFrom(base, keys), name)
  {
    assert (keys + [name])[..|keys|] == keys;
  }

  /** Every node of `nodes` lies below `keys` and its next key is one of `names`. */
  ghost predicate Below(nodes: set<Node>, keys: seq<string>, names: set<string>)
  {
    forall n | n in nodes :: |n.0| > |keys| && n.0[..|keys|] == keys && n.0[|keys|] in names
  }

  /*
   * The file nodes a download or transfer walk reaches: among the children of `dir`
   * named in `names`, every child of Type "file", and everything reached inside every
   * child of Type "folder". Children of any other Type are skipped.
   */
  ghost function FileNodesOver(dir: Entry, names: set<string>, keys: seq<string>): (r: set<Node>)
    ensures Below(r, keys, names * dir.Contents.Keys)
    ensures forall n | n in r :: n.1.Type == FileType
    decreases dir, 0
  {
    var c := dir.Contents;
    var files := set k | k in names && k in c && c[k].Type == FileType :: (keys + [k], c[k]);
    var nested := set k, n | k in names && k in c && c[k].Type == FolderType && n in FileNodes(c[k], keys + [k]) :: n;
    assert Below(nested, keys, names * c.Keys) by {
      forall n | n in nested ensures |n.0| > |keys| && n.0[..|keys|] == keys && n.0[|keys|] in names * c.Keys {
        var k :| k in names && k in c && c[k].Type == FolderType && n in FileNodes(c[k], keys + [k]);
        assert n.0[..|keys| + 1] == keys + [k];
        assert n.0[..|keys|] == (keys + [k])[..|keys|];
      }
    }
    files + nested
  }

  /** All file nodes a walk reaches under `dir`, keyed from `keys`. */
  ghost function FileNodes(dir: Entry, keys: seq<string>): (r: set<Node>)
    ensures Below(r, keys, dir.Contents.Keys)
    ensures forall n | n in r :: n.1.Type == FileType
    decreases dir, 1
  {
    FileNodesOver(dir, dir.Contents.Keys, keys)
  }

  /** The file nodes a walk reaches from the entry `e` at `keys`: the entry if it is a file, its walk if it is a folder. */
  ghost function FileNodesAt(e: Entry, keys: seq<string>): set<Node>
  {
    if e.Type == FileType then {(keys, e)}
    else if e.Type == FolderType then FileNodes(e, keys)
    else {}
  }

  /** Everything reached from child `name` lies below `keys + [name]`. */
  lemma FileNodesAtBelow(e: Entry, keys: seq<string>, name: string)
    ensures Below(FileNodesAt(e, keys + [name]), keys, {name})
  {
    if e.Type == FolderType {
      forall n | n in FileNodes(e, keys + [name]) ensures |n.0| > |keys| && n.0[..|keys|] == keys && n.0[|keys|] == name {
        assert n.0[..|keys| + 1] == keys + [name];
        assert n.0[..|keys|] == (keys + [name])[..|keys|];
      }
    }
  }

  /** Walking one more child adds exactly that child's nodes, and they are new. */
  lemma FileNodesStep(dir: Entry, names: set<string>, name: string, keys: seq<string>)
    requires name in dir.Contents && name !in names
    ensures FileNodesOver(dir, names + {name}, keys) == FileNodesOver(dir, names, keys) + FileNodesAt(dir.Contents[name], keys + [name])
    ensures FileNodesOver(dir, names, keys) !! FileNodesAt(dir.Contents[name], keys + [name])
  {
    FileNodesAtBelow(dir.Contents[name], keys, name);
    FileNodesSplit(dir, names, name, keys);
  }

  lemma FileNodesSplit(dir: Entry, names: set<string>, name: string, keys: seq<string>)
    requires name in dir.Contents
    ensures FileNodesOver(dir, names + {name}, keys) == FileNodesOver(dir, names, keys) + FileNodesAt(dir.Contents[name], keys + [name])
  {
  }

  /** Walking more children reaches more nodes. */
  lemma FileNodesOverMono(dir: Entry, names: set<string>, more: set<string>, keys: seq<string>)
    requires names <= more
    ensures FileNodesOver(dir, names, keys) <= FileNodesOver(dir, more, keys)
  {
  }

  /** Moving one name from the names still to visit to those visited keeps the two a partition. */
  lemma MoveName(done: set<string>, remaining: set<string>, name: string, all: set<string>)
    requires done + remaining == all && done !! remaining && name in remaining
    ensures (done + {name}) + (remaining - {name}) == all && (done + {name}) !! (remaining - {name})
  {
  }

  /** One walk step over child `name` of `dir` adds that child's nodes, which lie inside the whole walk and are new. */
  lemma WalkStep(dir: Entry, done: set<string>, name: string, keys: seq<string>)
    requires done <= dir.Contents.Keys && name in dir.Contents && name !in done
    ensures FileNodesOver(dir, done + {name}, keys) == FileNodesOver(dir, done, keys) + FileNodesAt(dir.Contents[name], keys + [name])
    ensures FileNodesOver(dir, done, keys) !! FileNodesAt(dir.Contents[name], keys + [name])
    ensures FileNodesAt(dir.Contents[name], keys + [name]) <= FileNodes(dir, keys)
  {
    FileNodesStep(dir, done, name, keys);
    FileNodesStep(dir, dir.Contents.Keys - {name}, name, keys);
    assert dir.Contents.Keys - {name} + {name} == dir.Contents.Keys;
  }

  /** A folder with no children contributes nothing to a walk. */
  lemma EmptyFolderHasNoFiles(dir: Entry, keys: seq<string>)
    requires dir.Contents == map[]
    ensures FileNodes(dir, keys) == {}
  {
  }

  /*
   * The nodes GetVaultStats counts under `dir`: every child named in `names`, and,
   * for every child whose Type is not "file", everything below it.
   */
  ghost function StatNodesOver(dir: Entry, names: set<string>, keys: seq<string>): (r: set<Node>)
    ensures Below(r, keys, names * dir.Contents.Keys)
    decreases dir, 0
  {
    var c := dir.Contents;
    var own := set k | k in names && k in c :: (keys + [k], c[k]);
    var nested := set k, n | k in names && k in c && c[k].Type != FileType && n in StatNodes(c[k], keys + [k]) :: n;
    assert Below(nested, keys, names * c.Keys) by {
      forall n | n in nested ensures |n.0| > |keys| && n.0[..|keys|] == keys && n.0[|keys|] in names * c.Keys {
        var k :| k in names && k in c && c[k].Type != FileType && n in StatNodes(c[k], keys + [k]);
        assert n.0[..|keys| + 1] == keys + [k];
        assert n.0[..|keys|] == (keys + [k])[..|keys|];
      }
    }
    own + nested
  }

  /** All nodes GetVaultStats counts below `dir`. */
  ghost function StatNodes(dir: Entry, keys: seq<string>): (r: set<Node>)
    ensures Below(r, keys, dir.Contents.Keys)
    decreases dir, 1
  {
    StatNodesOver(dir, dir.Contents.Keys, keys)
  }

  /** The nodes counted for one entry at `keys`: the entry itself and, unless it is a file, its descendants. */
  ghost function StatNodesAt(e: Entry, keys: seq<string>): set<Node>
  {
    {(keys, e)} + (if e.Type != FileType then StatNodes(e, keys) else {})
  }

  lemma StatNodesStep(dir: Entry, names: set<string>, name: string, keys: seq<string>)
    requires name in dir.Contents && name !in names
    ensures StatNodesOver(dir, names + {name}, keys) == StatNodesOver(dir, names, keys) + StatNodesAt(dir.Contents[name], keys + [name])
    ensures StatNodesOver(dir, names, keys) !! StatNodesAt(dir.Contents[name], keys + [name])
  {
    var before := StatNodesOver(dir, names, keys);
    var part := StatNodesAt(dir.Contents[name], keys + [name]);
    forall n | n in part ensures |n.0| > |keys| && n.0[|keys|] == name {
      if n != (keys + [name], dir.Contents[name]) {
        assert n.0[..|keys| + 1] == keys + [name];
      }
    }
    assert before !! part;
  }

  /** Only files are counted as files. */
  ghost function FilesAmong(nodes: set<Node>): set<Node>
  {
    set n | n in nodes && n.1.Type == FileType
  }

  /** Everything that is not a file is counted as a folder. */
  ghost function FoldersAmong(nodes: set<Node>): set<Node>
  {
    set n | n in nodes && n.1.Type != FileType
  }

  /** Each counted node is a file or a folder and never both. */
  lemma FilesAndFoldersPartition(nodes: set<Node>)
    ensures |FilesAmong(nodes)| + |FoldersAmong(nodes)| == |nodes|
  {
    assert FilesAmong(nodes) + FoldersAmong(nodes) == nodes;
    assert FilesAmong(nodes) !! FoldersAmong(nodes);
  }

  /** The index holds only "file" and "folder" entries, at every depth. */
  ghost predicate WellTyped(dir: Entry)
    decreases dir
  {
    forall k | k in dir.Contents ::
      (dir.Contents[k].Type == FileType || dir.Contents[k].Type == FolderType) && WellTyped(dir.Contents[k])
  }

  /**
   * Every file a download or transfer walk reaches is counted by GetVaultStats, and
   * in an index of only files and folders they count exactly the same files.
   */
  lemma {:induction false} WalkFilesAreCountedFiles(dir: Entry, keys: seq<string>)
    ensures FileNodes(dir, keys) <= FilesAmong(StatNodes(dir, keys))
    ensures WellTyped(dir) ==> FileNodes(dir, keys) == FilesAmong(StatNodes(dir, keys))
    decreases dir
  {
    var c := dir.Contents;
    forall n | n in FileNodes(dir, keys) ensures n in FilesAmong(StatNodes(dir, keys)) {
      assert n in FileNodesOver(dir, c.Keys, keys);
      if k :| k in c && c[k].Type == FileType && n == (keys + [k], c[k]) {
        assert n in StatNodes(dir, keys);
      } else {
        var k :| k in c && c[k].Type == FolderType && n in FileNodes(c[k], keys + [k]);
        WalkFilesAreCountedFiles(c[k], keys + [k]);
        assert n in StatNodes(dir, keys);
      }
    }
    if WellTyped(dir) {
      forall n | n in FilesAmong(StatNodes(dir, keys)) ensures n in FileNodes(dir, keys) {
        assert n in StatNodesOver(dir, c.Keys, keys) && n.1.Type == FileType;
        if k :| k in c && n == (keys + [k], c[k]) {
          assert n in FileNodes(dir, keys);
        } else {
          var k :| k in c && c[k].Type != FileType && n in StatNodes(c[k], keys + [k]);
          assert c[k].Type == FolderType && WellTyped(c[k]);
          WalkFilesAreCountedFiles(c[k], keys + [k]);
          assert n in FileNodes(c[k], keys + [k]);
        }
      }
    }
  }
}
