/** The response-mode decision of `downloadFiles` (server/models/client.js):
    which file indices are selected, which paths they resolve to, and whether
    the answer is a 404, one file, or a tar archive. Streaming itself is not
    modelled; `existing` stands for `fs.existsSync`. */
module Download {
  import opened Wrappers
  import Text
  import opened FileTree

  /** The fields of the cached torrent that the download uses. */
  datatype Torrent = Torrent(name: string, directory: string)

  /** One entry appended to the tar stream: the file read and its entry name. */
  datatype TarEntry = TarEntry(source: string, name: string)

  datatype Response =
    | NotFound(error: string)
    | SingleFile(path: string, attachment: string)
    | TarArchive(attachment: string, entries: seq<TarEntry>)
      /** A TypeError escapes the details callback (`fileTree.files` missing
          while the default selection is built). */
    | Thrown

  const TorrentNotFound: string := "Torrent not found."
  const DetailsNotFound: string := "Torrent details not found"
  const FileNotFound: string := "File not found."

  /** `files.map((x, i) => `${i}`)`: the decimal strings of `0 .. n-1`. */
  function DefaultSelection(n: nat): (sel: seq<string>)
    ensures |sel| == n
  {
    seq(n, i requires 0 <= i < n => Text.Decimal(i))
  }

  /** The default selection picks a file exactly when its index is below the
      number of top-level files, wherever in the tree the file sits. */
  lemma DefaultSelectionPicksIndicesBelow(n: nat, f: TorrentFile)
    ensures Requested(DefaultSelection(n), f) <==> f.index < n
  {
    var sel := DefaultSelection(n);
    if f.index < n {
      assert sel[f.index] == Text.Decimal(f.index);
    }
    if Requested(sel, f) {
      var i :| 0 <= i < n && sel[i] == Text.Decimal(f.index);
      Text.DecimalInjective(i, f.index);
    }
  }

  /** The index strings to look for: the comma-split `fileString`, or the
      default when it is falsy (`undefined` or `""`). None when the default is
      needed but the tree has no `files` array. */
  function Selection(fileString: Option<string>, tree: Tree): (sel: Option<seq<string>>)
    ensures fileString.Some? && fileString.value != "" ==>
      sel.Some? && Text.Join(sel.value, ',') == fileString.value &&
      forall i :: 0 <= i < |sel.value| ==> ',' !in sel.value[i]
    ensures (fileString.None? || fileString.value == "") ==>
      (sel.Some? <==> tree.files.Some?) &&
      (sel.Some? ==> forall f :: Requested(sel.value, f) <==> f.index < |tree.files.value|)
  {
    if fileString.None? || fileString.value == "" then
      match tree.files
      case None => None
      case Some(fs) =>
        forall f ensures Requested(DefaultSelection(|fs|), f) <==> f.index < |fs| {
          DefaultSelectionPicksIndicesBelow(|fs|, f);
        }
        Some(DefaultSelection(|fs|))
    else
      Text.JoinSplit(fileString.value, ',');
      Some(Text.Split(fileString.value, ','))
  }

  /** `path.join(directory, file)`, without normalisation. */
  function JoinPath(directory: string, file: string): string
  {
    directory + "/" + file
  }

  /** `path.basename`: the part after the last `/`. */
  function Basename(p: string): (b: string)
    ensures '/' !in b
    ensures |b| <= |p| && b == p[|p| - |b|..]
    ensures b == p || p[|p| - |b| - 1] == '/'
  {
    if |p| == 0 then ""
    else if p[|p| - 1] == '/' then ""
    else Basename(p[..|p| - 1]) + [p[|p| - 1]]
  }

  /** The attachment name of a single-file download is the file's own
      basename: the torrent directory never shows through. */
  lemma {:induction false} BasenameOfJoin(directory: string, file: string)
    ensures Basename(JoinPath(directory, file)) == Basename(file)
  {
    if |file| == 0 {
      assert JoinPath(directory, file) == directory + ['/'];
      BasenameSnoc(directory, '/');
    } else {
      var init := file[..|file| - 1];
      var last := file[|file| - 1];
      assert file == init + [last];
      assert JoinPath(directory, file) == JoinPath(directory, init) + [last];
      BasenameOfJoin(directory, init);
      BasenameSnoc(JoinPath(directory, init), last);
      BasenameSnoc(init, last);
    }
  }

  /** Appending one character either ends the base name (a `/`) or extends
      it. */
  lemma BasenameSnoc(p: string, c: char)
    ensures Basename(p + [c]) == if c == '/' then "" else Basename(p) + [c]
  {
    assert (p + [c])[..|p|] == p;
  }

  /** The absolute paths of the selected files, in search order. */
  function ResolvePaths(torrent: Torrent, tree: Tree, sel: seq<string>): (ps: seq<string>)
    ensures |ps| == |FindFiles(sel, tree)|
    ensures forall i :: 0 <= i < |ps| ==> ps[i] == JoinPath(torrent.directory, FindFiles(sel, tree)[i].path)
  {
    var found := FindFiles(sel, tree);
    seq(|found|, i requires 0 <= i < |found| => JoinPath(torrent.directory, found[i].path))
  }

  /** The resolved paths for a known torrent with details, or None when the
      selection throws. */
  function Resolve(torrent: Torrent, tree: Tree, fileString: Option<string>): (ps: Option<seq<string>>)
    ensures ps.Some? <==> (fileString.Some? && fileString.value != "") || tree.files.Some?
    ensures ps.Some? ==> var found := FindFiles(Selection(fileString, tree).value, tree);
      |ps.value| == |found| &&
      forall i :: 0 <= i < |found| ==> ps.value[i] == JoinPath(torrent.directory, found[i].path)
  {
    match Selection(fileString, tree)
    case None => None
    case Some(sel) => Some(ResolvePaths(torrent, tree, sel))
  }

  /** The tar entries for `paths`, each named by its basename. */
  function TarEntries(paths: seq<string>): (es: seq<TarEntry>)
    ensures |es| == |paths|
    ensures forall i :: 0 <= i < |es| ==> es[i].source == paths[i] && es[i].name == Basename(paths[i])
  {
    seq(|paths|, i requires 0 <= i < |paths| => TarEntry(paths[i], Basename(paths[i])))
  }

  /** `downloadFiles(user, hash, fileString, res)`. `torrent` is the cached
      torrent for the hash and `details` the file tree of its details, each
      None when missing. */
  function Decide(torrent: Option<Torrent>, details: Option<Tree>, fileString: Option<string>,
                  existing: set<string>): (r: Response)
    ensures torrent.None? ==> r == NotFound(TorrentNotFound)
    ensures torrent.Some? && details.None? ==> r == NotFound(DetailsNotFound)
    ensures r.Thrown? <==> (torrent.Some? && details.Some? &&
      Resolve(torrent.value, details.value, fileString).None?)
    ensures r.SingleFile? <==> (torrent.Some? && details.Some? &&
      var ps := Resolve(torrent.value, details.value, fileString);
      ps.Some? && |ps.value| == 1 && ps.value[0] in existing)
    ensures r.SingleFile? ==> r.path in existing && r.attachment == Basename(r.path)
    ensures r.SingleFile? ==> (torrent.Some? && details.Some? &&
      var ps := Resolve(torrent.value, details.value, fileString);
      ps.Some? && |ps.value| == 1 && r.path == ps.value[0])
    ensures r == NotFound(FileNotFound) <==> (torrent.Some? && details.Some? &&
      var ps := Resolve(torrent.value, details.value, fileString);
      ps.Some? && |ps.value| == 1 && ps.value[0] !in existing)
    ensures r.TarArchive? <==> (torrent.Some? && details.Some? &&
      var ps := Resolve(torrent.value, details.value, fileString);
      ps.Some? && |ps.value| != 1)
    ensures r.TarArchive? ==>
      r.attachment == torrent.value.name + ".tar" &&
      r.entries == TarEntries(Resolve(torrent.value, details.value, fileString).value)
  {
    match torrent
    case None => NotFound(TorrentNotFound)
    case Some(t) =>
      match details
      case None => NotFound(DetailsNotFound)
      case Some(tree) =>
        match Resolve(t, tree, fileString)
        case None => Thrown
        case Some(ps) =>
          if |ps| == 1 then
            if ps[0] in existing then SingleFile(ps[0], Basename(ps[0]))
            else NotFound(FileNotFound)
          else TarArchive(t.name + ".tar", TarEntries(ps))
  }

  /** With no file string, a tree whose files all sit in a subdirectory
      resolves nothing, and the answer is an empty tar archive rather than a
      404 or the whole torrent. */
  lemma NestedOnlyTorrentDownloadsEmptyTar(t: Torrent, existing: set<string>)
    ensures var tree := Tree(Some([]), Listed([Dir("d", Tree(Some([TorrentFile(0, "d/a")]), Absent))]));
      Decide(Some(t), Some(tree), None, existing) == TarArchive(t.name + ".tar", [])
  {
    var tree := Tree(Some([]), Listed([Dir("d", Tree(Some([TorrentFile(0, "d/a")]), Absent))]));
    assert Selection(None, tree) == Some([]);
    FindFilesEdgeCases([], tree);
    assert ResolvePaths(t, tree, []) == [];
  }

  /** A single-file download serves the one file the selection found, under
      the torrent's directory, and is named by the basename of that file's own
      path within the torrent. */
  lemma SingleFileNamedByFile(t: Torrent, tree: Tree, fileString: Option<string>, existing: set<string>)
    requires Decide(Some(t), Some(tree), fileString, existing).SingleFile?
    ensures var sel := Selection(fileString, tree).value;
      var found := FindFiles(sel, tree);
      |found| == 1 && Occurs(found[0], tree) && Requested(sel, found[0]) &&
      Decide(Some(t), Some(tree), fileString, existing).path == JoinPath(t.directory, found[0].path) &&
      Decide(Some(t), Some(tree), fileString, existing).attachment == Basename(found[0].path)
  {
    var sel := Selection(fileString, tree).value;
    var found := FindFiles(sel, tree);
    assert found[0] in found;
    FindFilesMembership(sel, tree, found[0]);
    BasenameOfJoin(t.directory, found[0].path);
  }
}
