/** A torrent's file tree as returned with the torrent details, and the
    recursive index search `findFilesByIndicies` (server/models/client.js). */
module FileTree {
  import opened Wrappers
  import Text

  /** A file of the torrent; `index` is the client's numeric file index and
      `path` its path relative to the torrent's directory. */
  datatype TorrentFile = TorrentFile(index: nat, path: string)

  /** One entry of a `directories` object: its key and its subtree. */
  datatype Dir = Dir(name: string, tree: Tree)

  /** The `directories` property: absent (`null`/`undefined`) or an object,
      whose entries are listed in `Object.keys` order. */
  datatype Dirs = Absent | Listed(entries: seq<Dir>)

  /** A node of the tree; `files` may be missing. */
  datatype Tree = Tree(files: Option<seq<TorrentFile>>, directories: Dirs)

  /** The default argument `fileTree = {}`. */
  const EmptyTree: Tree := Tree(None, Absent)

  /** `indices.includes(`${file.index}`)`. */
  predicate Requested(indices: seq<string>, f: TorrentFile)
  {
    Text.Decimal(f.index) in indices
  }

  /** The node's own files, with `files = []` as default. */
  function OwnFiles(t: Tree): seq<TorrentFile>
  {
    t.files.GetOr([])
  }

  /** `files.filter(file => indices.includes(`${file.index}`))`. */
  function Select(indices: seq<string>, fs: seq<TorrentFile>): (r: seq<TorrentFile>)
    ensures |r| <= |fs|
    ensures forall f :: f in r <==> f in fs && Requested(indices, f)
  {
    if |fs| == 0 then []
    else (if Requested(indices, fs[0]) then [fs[0]] else []) + Select(indices, fs[1..])
  }

  /** `findFilesByIndicies(indices, t)`: the node's own selected files, then,
      when `directories` is present, the results of each subdirectory in key
      order. */
  function FindFiles(indices: seq<string>, t: Tree): (r: seq<TorrentFile>)
    ensures forall f :: f in r ==> Requested(indices, f)
    decreases t, 1, 0
  {
    Select(indices, OwnFiles(t)) +
    match t.directories
    case Absent => []
    case Listed(ds) => FindInDirs(indices, t, ds, 0)
  }

  /** The `reduce` over `Object.keys(directories)` from key `i` on. */
  function FindInDirs(indices: seq<string>, t: Tree, ds: seq<Dir>, i: nat): (r: seq<TorrentFile>)
    requires t.directories == Listed(ds) && i <= |ds|
    ensures forall f :: f in r ==> Requested(indices, f)
    decreases t, 0, |ds| - i
  {
    if i == |ds| then [] else FindFiles(indices, ds[i].tree) + FindInDirs(indices, t, ds, i + 1)
  }

  /** Reference traversal: every file of the tree, depth first, a node's own
      files before its subdirectories, subdirectories in key order. */
  function AllFiles(t: Tree): seq<TorrentFile>
    decreases t, 1, 0
  {
    OwnFiles(t) +
    match t.directories
    case Absent => []
    case Listed(ds) => AllInDirs(t, ds, 0)
  }

  function AllInDirs(t: Tree, ds: seq<Dir>, i: nat): seq<TorrentFile>
    requires t.directories == Listed(ds) && i <= |ds|
    decreases t, 0, |ds| - i
  {
    if i == |ds| then [] else AllFiles(ds[i].tree) + AllInDirs(t, ds, i + 1)
  }

  /** Reference membership: `f` is a file of the node or of a subtree, at any
      depth. */
  predicate Occurs(f: TorrentFile, t: Tree)
    decreases t, 1, 0
  {
    f in OwnFiles(t) ||
    match t.directories
    case Absent => false
    case Listed(ds) => OccursInDirs(f, t, ds, 0)
  }

  predicate OccursInDirs(f: TorrentFile, t: Tree, ds: seq<Dir>, i: nat)
    requires t.directories == Listed(ds) && i <= |ds|
    decreases t, 0, |ds| - i
  {
    i < |ds| && (Occurs(f, ds[i].tree) || OccursInDirs(f, t, ds, i + 1))
  }

  lemma {:induction false} SelectAppend(indices: seq<string>, a: seq<TorrentFile>, b: seq<TorrentFile>)
    ensures Select(indices, a + b) == Select(indices, a) + Select(indices, b)
  {
    if |a| == 0 {
      assert a + b == b;
    } else {
      var head := if Requested(indices, a[0]) then [a[0]] else [];
      assert (a + b)[0] == a[0];
      assert (a + b)[1..] == a[1..] + b;
      calc {
        Select(indices, a + b);
        head + Select(indices, a[1..] + b);
        { SelectAppend(indices, a[1..], b); }
        head + (Select(indices, a[1..]) + Select(indices, b));
        (head + Select(indices, a[1..])) + Select(indices, b);
      }
    }
  }

  /** Order: the search result is the reference traversal with the unrequested
      files dropped, so matching files come out in traversal order. */
  lemma {:induction false} FindFilesIsFilteredTraversal(indices: seq<string>, t: Tree)
    ensures FindFiles(indices, t) == Select(indices, AllFiles(t))
    decreases t, 1, 0
  {
    match t.directories
    case Absent =>
      assert AllFiles(t) == OwnFiles(t);
      assert FindFiles(indices, t) == Select(indices, OwnFiles(t));
    case Listed(ds) =>
      FindInDirsIsFilteredTraversal(indices, t, ds, 0);
      SelectAppend(indices, OwnFiles(t), AllInDirs(t, ds, 0));
  }

  lemma {:induction false} FindInDirsIsFilteredTraversal(indices: seq<string>, t: Tree, ds: seq<Dir>, i: nat)
    requires t.directories == Listed(ds) && i <= |ds|
    ensures FindInDirs(indices, t, ds, i) == Select(indices, AllInDirs(t, ds, i))
    decreases t, 0, |ds| - i
  {
    if i < |ds| {
      FindFilesIsFilteredTraversal(indices, ds[i].tree);
      FindInDirsIsFilteredTraversal(indices, t, ds, i + 1);
      SelectAppend(indices, AllFiles(ds[i].tree), AllInDirs(t, ds, i + 1));
    }
  }

  /** The traversal lists exactly the files that occur in the tree. */
  lemma {:induction false} AllFilesIsOccurs(f: TorrentFile, t: Tree)
    ensures f in AllFiles(t) <==> Occurs(f, t)
    decreases t, 1, 0
  {
    match t.directories
    case Absent =>
    case Listed(ds) => AllInDirsIsOccurs(f, t, ds, 0);
  }

  lemma {:induction false} AllInDirsIsOccurs(f: TorrentFile, t: Tree, ds: seq<Dir>, i: nat)
    requires t.directories == Listed(ds) && i <= |ds|
    ensures f in AllInDirs(t, ds, i) <==> OccursInDirs(f, t, ds, i)
    decreases t, 0, |ds| - i
  {
    if i < |ds| {
      AllFilesIsOccurs(f, ds[i].tree);
      AllInDirsIsOccurs(f, t, ds, i + 1);
    }
  }

  /** Contents: a file is found iff it occurs somewhere in the tree, at any
      depth, and its index rendered in decimal is one of the requested
      strings. */
  lemma FindFilesMembership(indices: seq<string>, t: Tree, f: TorrentFile)
    ensures f in FindFiles(indices, t) <==> Occurs(f, t) && Requested(indices, f)
  {
    FindFilesIsFilteredTraversal(indices, t);
    AllFilesIsOccurs(f, t);
  }

  /** Edge cases: the empty tree and the empty index list yield nothing; a
      node without `files` contributes no files of its own; a node without
      `directories` is not descended into. */
  lemma FindFilesEdgeCases(indices: seq<string>, t: Tree)
    ensures FindFiles(indices, EmptyTree) == []
    ensures FindFiles([], t) == []
    ensures t.files.None? && t.directories.Absent? ==> FindFiles(indices, t) == []
    ensures t.directories.Absent? ==>
      forall f :: f in FindFiles(indices, t) <==> f in OwnFiles(t) && Requested(indices, f)
  {
    FindFilesIsFilteredTraversal([], t);
    SelectNothing(AllFiles(t));
  }

  lemma {:induction false} SelectNothing(fs: seq<TorrentFile>)
    ensures Select([], fs) == []
  {
    if |fs| > 0 {
      SelectNothing(fs[1..]);
    }
  }
}
