/**
 * BasicSearchEngine of the CLI variant: the same index and search, but no
 * record of which files were indexed, so indexing a folder again appends a
 * second posting for every (term, file) pair.
 */
module CliSearchEngine {
  import opened Wrappers
  import opened Python
  import opened Tokenizer
  import opened Text
  import opened Postings
  import opened Files
  import opened InvertedIndex
  import Gui = GuiSearchEngine

  datatype Batch = Batch(index: Index, failure: Option<Failure>)

  datatype Run = Run(index: Index, report: Report)

  /** The loop over the candidate paths: every file is read and added, none is skipped. */
  function IndexPaths(idx: Index, fs: FileSystem, paths: seq<Path>): Batch
    decreases |paths|
  {
    if |paths| == 0 then Batch(idx, None)
    else
      match Read(fs, paths[0])
      case Err(err) => Batch(idx, Some(Failure(paths[0], err)))
      case Ok(content) => IndexPaths(AddDocument(idx, paths[0], Tokenize(content)), fs, paths[1..])
  }

  /** index_files(folder_path) without the already-indexed guard. */
  function IndexFiles(idx: Index, fs: FileSystem, folder: Path): (r: Run)
    ensures folder !in fs.dirs ==> r == Run(idx, NotADirectory)
    ensures folder in fs.dirs ==> !r.report.NotADirectory?
  {
    if folder !in fs.dirs then Run(idx, NotADirectory)
    else
      var paths := TxtPaths(folder, fs.dirs[folder]);
      var b := IndexPaths(idx, fs, paths);
      match b.failure
      case None => Run(b.index, Indexed(|paths|))
      case Some(f) => Run(b.index, Aborted(f.path, f.error))
  }

  /** How many of the paths hold the term. */
  function Containing(fs: FileSystem, paths: seq<Path>, t: string): nat {
    if |paths| == 0 then 0
    else (if t in Gui.DocTokens(fs, paths[0]) then 1 else 0) + Containing(fs, paths[1..], t)
  }

  /**
   * A batch that runs through lengthens the postings of every term by one
   * entry per path holding it, whatever the index already held for those
   * files.
   */
  lemma {:induction false} IndexPathsAppends(idx: Index, fs: FileSystem, paths: seq<Path>, t: string)
    requires IndexPaths(idx, fs, paths).failure.None?
    ensures |PostingsOf(IndexPaths(idx, fs, paths).index, t)| == |PostingsOf(idx, t)| + Containing(fs, paths, t)
    decreases |paths|
  {
    if |paths| > 0 {
      var words := Tokenize(Read(fs, paths[0]).value);
      assert Gui.DocTokens(fs, paths[0]) == words;
      IndexPathsAppends(AddDocument(idx, paths[0], words), fs, paths[1..], t);
    }
  }

  /** Re-reading the same files fails, or not, exactly as the first time. */
  lemma {:induction false} IndexPathsFailureIgnoresIndex(a: Index, b: Index, fs: FileSystem, paths: seq<Path>)
    ensures IndexPaths(a, fs, paths).failure == IndexPaths(b, fs, paths).failure
    decreases |paths|
  {
    if |paths| > 0 && Read(fs, paths[0]).Ok? {
      var words := Tokenize(Read(fs, paths[0]).value);
      IndexPathsFailureIgnoresIndex(AddDocument(a, paths[0], words), AddDocument(b, paths[0], words), fs, paths[1..]);
    }
  }

  /**
   * Without the guard, every index_files call on a folder that indexes
   * cleanly grows each term's postings by one entry per file holding it,
   * however often the folder was indexed before.
   */
  lemma IndexFilesAppendsEveryTime(idx: Index, fs: FileSystem, folder: Path, t: string)
    requires folder in fs.dirs
    requires IndexFiles(idx, fs, folder).report.Indexed?
    ensures |PostingsOf(IndexFiles(idx, fs, folder).index, t)|
            == |PostingsOf(idx, t)| + Containing(fs, TxtPaths(folder, fs.dirs[folder]), t)
  {
    IndexPathsAppends(idx, fs, TxtPaths(folder, fs.dirs[folder]), t);
  }

  /** The index setter: a dict replaces the index, anything else raises TypeError and changes nothing. */
  function SetIndex(idx: Index, value: Arg<Index>): (r: Outcome<Index>)
    ensures r.Err? <==> value.NotInstance?
    ensures r.Err? ==> r.error == TypeError
    ensures r.Ok? ==> r.value == value.obj
  {
    match value
    case Instance(m) => Ok(m)
    case NotInstance => Err(TypeError)
  }

  /**
   * On paths listed once each and not yet indexed, the GUI variant's guard
   * never fires, so both variants build the same index and stop at the same
   * failure.
   */
  lemma {:induction false} GuiAgreesWhileNothingIsSkipped(e: Gui.Engine, fs: FileSystem, paths: seq<Path>)
    requires Distinct(paths)
    requires forall k | 0 <= k < |paths| :: paths[k] !in e.indexedFiles
    ensures Gui.IndexPaths(e, fs, paths).engine.index == IndexPaths(e.index, fs, paths).index
    ensures Gui.IndexPaths(e, fs, paths).failure == IndexPaths(e.index, fs, paths).failure
    decreases |paths|
  {
    if |paths| > 0 && Read(fs, paths[0]).Ok? {
      var e1 := Gui.AddFile(e, paths[0], Read(fs, paths[0]).value);
      assert forall k | 0 <= k < |paths[1..]| :: paths[1..][k] == paths[k + 1];
      GuiAgreesWhileNothingIsSkipped(e1, fs, paths[1..]);
    }
  }

  /**
   * The difference between the variants. Starting from a fresh engine on a
   * folder that indexes cleanly, both variants build the same index. A second
   * index_files leaves the GUI variant's index as it was, while the CLI
   * variant's postings lists double in length: each file is posted twice.
   */
  lemma ReindexingDiffers(fs: FileSystem, folder: Path, t: string)
    requires ValidFileSystem(fs) && folder in fs.dirs
    requires IndexFiles(map[], fs, folder).report.Indexed?
    ensures var gui1 := Gui.IndexFiles(Gui.Fresh, fs, folder).engine;
            var gui2 := Gui.IndexFiles(gui1, fs, folder).engine;
            var cli1 := IndexFiles(map[], fs, folder).index;
            var cli2 := IndexFiles(cli1, fs, folder).index;
            && gui1.index == cli1
            && gui2 == gui1
            && |PostingsOf(cli2, t)| == 2 * |PostingsOf(cli1, t)| == 2 * Containing(fs, TxtPaths(folder, fs.dirs[folder]), t)
  {
    var paths := TxtPaths(folder, fs.dirs[folder]);
    TxtPathsDistinct(folder, fs.dirs[folder]);
    GuiAgreesWhileNothingIsSkipped(Gui.Fresh, fs, paths);
    Gui.IndexFilesIdempotent(Gui.Fresh, fs, folder);
    var cli1 := IndexFiles(map[], fs, folder).index;
    IndexPathsFailureIgnoresIndex(map[], cli1, fs, paths);
    IndexFilesAppendsEveryTime(map[], fs, folder, t);
    IndexFilesAppendsEveryTime(cli1, fs, folder, t);
  }
}
