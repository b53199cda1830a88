/**
 * BasicSearchEngine of the GUI variant: an index plus the set of files
 * already indexed, which makes re-indexing a no-op for those files and
 * gates get_file_content.
 */
module GuiSearchEngine {
  import opened Wrappers
  import opened Python
  import opened Text
  import opened Tokenizer
  import opened Postings
  import opened Files
  import opened InvertedIndex

  datatype Engine = Engine(index: Index, indexedFiles: set<Path>)

  /** The engine as __init__ leaves it. */
  const Fresh := Engine(map[], {})

  /** The outcome of a batch: the engine reached, and the read that stopped it, if any. */
  datatype Batch = Batch(engine: Engine, failure: Option<Failure>)

  /** What index_files leaves behind and reports. */
  datatype Run = Run(engine: Engine, report: Report)

  /** One file read successfully: its postings are recorded, then it is marked indexed. */
  function AddFile(e: Engine, path: Path, content: string): Engine {
    Engine(AddDocument(e.index, path, Tokenize(content)), e.indexedFiles + {path})
  }

  /**
   * The loop over the candidate paths. An already indexed path is skipped;
   * otherwise the file is read, and a read that raises ends the whole batch
   * because the one try/except sits around the loop.
   */
  function IndexPaths(e: Engine, fs: FileSystem, paths: seq<Path>): Batch
    decreases |paths|
  {
    if |paths| == 0 then Batch(e, None)
    else if paths[0] in e.indexedFiles then IndexPaths(e, fs, paths[1..])
    else
      match Read(fs, paths[0])
      case Err(err) => Batch(e, Some(Failure(paths[0], err)))
      case Ok(content) => IndexPaths(AddFile(e, paths[0], content), fs, paths[1..])
  }

  /** index_files(folder_path). */
  function IndexFiles(e: Engine, fs: FileSystem, folder: Path): (r: Run)
    ensures folder !in fs.dirs ==> r == Run(e, NotADirectory)
    ensures folder in fs.dirs ==> !r.report.NotADirectory?
  {
    if folder !in fs.dirs then Run(e, NotADirectory)
    else
      var paths := TxtPaths(folder, fs.dirs[folder]);
      var b := IndexPaths(e, fs, paths);
      match b.failure
      case None => Run(b.engine, Indexed(|paths|))
      case Some(f) => Run(b.engine, Aborted(f.path, f.error))
  }

  /** The tokens of a file as index_files reads them; none when it cannot be read. */
  function DocTokens(fs: FileSystem, f: Path): seq<string> {
    if f in fs.files && fs.files[f].Some? then Tokenize(fs.files[f].value) else []
  }

  /**
   * The engine invariant: every indexed file is readable; every posting
   * names an indexed file; no term has two postings for one file; and for
   * every indexed file f and term t, the index holds WordInfo(f, n) exactly
   * when t is one of f's tokens and n is its number of occurrences.
   */
  ghost predicate Consistent(e: Engine, fs: FileSystem) {
    && (forall f | f in e.indexedFiles :: Read(fs, f).Ok?)
    && (forall t, i | t in e.index && 0 <= i < |e.index[t]| :: e.index[t][i].fileName in e.indexedFiles)
    && (forall t, i, j | t in e.index && 0 <= i < j < |e.index[t]| ::
          e.index[t][i].fileName != e.index[t][j].fileName)
    && (forall f, t, n | f in e.indexedFiles ::
          WordInfo(f, n) in PostingsOf(e.index, t) <==>
          t in DocTokens(fs, f) && n == Occurrences(DocTokens(fs, f), t))
  }

  /** The postings of a term after a file is added: one more posting for the file's own terms. */
  lemma PostingsAfterAdd(e: Engine, path: Path, content: string, t: string)
    ensures var words := Tokenize(content);
            PostingsOf(AddFile(e, path, content).index, t)
            == if t in words then PostingsOf(e.index, t) + [WordInfo(path, Occurrences(words, t))]
               else PostingsOf(e.index, t)
  {
  }

  /** Adding a file: every posting still names an indexed file, and no term gets a second posting for one file. */
  lemma AddFileKeepsPostingsDistinct(e: Engine, fs: FileSystem, path: Path, content: string)
    requires Consistent(e, fs)
    requires path !in e.indexedFiles
    ensures var e' := AddFile(e, path, content);
            && (forall t, i | t in e'.index && 0 <= i < |e'.index[t]| :: e'.index[t][i].fileName in e'.indexedFiles)
            && (forall t, i, j | t in e'.index && 0 <= i < j < |e'.index[t]| ::
                  e'.index[t][i].fileName != e'.index[t][j].fileName)
  {
    var e' := AddFile(e, path, content);
    forall t, i | t in e'.index && 0 <= i < |e'.index[t]|
      ensures e'.index[t][i].fileName in e'.indexedFiles
    {
      PostingsAfterAdd(e, path, content, t);
    }
    forall t, i, j | t in e'.index && 0 <= i < j < |e'.index[t]|
      ensures e'.index[t][i].fileName != e'.index[t][j].fileName
    {
      PostingsAfterAdd(e, path, content, t);
      if j == |PostingsOf(e.index, t)| {
        assert e'.index[t][i] == PostingsOf(e.index, t)[i];
      }
    }
  }

  /** Adding a readable file: every indexed file's postings still carry exactly its token counts. */
  lemma AddFileKeepsCounts(e: Engine, fs: FileSystem, path: Path, content: string)
    requires Consistent(e, fs)
    requires path !in e.indexedFiles && Read(fs, path) == Ok(content)
    ensures var e' := AddFile(e, path, content);
            forall f, t, n | f in e'.indexedFiles ::
              WordInfo(f, n) in PostingsOf(e'.index, t) <==>
              t in DocTokens(fs, f) && n == Occurrences(DocTokens(fs, f), t)
  {
    var words := Tokenize(content);
    var e' := AddFile(e, path, content);
    assert DocTokens(fs, path) == words;
    forall f, t, n | f in e'.indexedFiles
      ensures WordInfo(f, n) in PostingsOf(e'.index, t) <==>
              t in DocTokens(fs, f) && n == Occurrences(DocTokens(fs, f), t)
    {
      PostingsAfterAdd(e, path, content, t);
      assert WordInfo(path, n) !in PostingsOf(e.index, t);
    }
  }

  /** Adding an unindexed, readable file keeps the engine consistent. */
  lemma AddFileKeepsConsistent(e: Engine, fs: FileSystem, path: Path, content: string)
    requires Consistent(e, fs)
    requires path !in e.indexedFiles && Read(fs, path) == Ok(content)
    ensures Consistent(AddFile(e, path, content), fs)
  {
    AddFileKeepsPostingsDistinct(e, fs, path, content);
    AddFileKeepsCounts(e, fs, path, content);
  }

  /** A batch keeps the engine consistent, whether it completes or stops at a failed read. */
  lemma {:induction false} IndexPathsKeepsConsistent(e: Engine, fs: FileSystem, paths: seq<Path>)
    requires Consistent(e, fs)
    ensures Consistent(IndexPaths(e, fs, paths).engine, fs)
    decreases |paths|
  {
    if |paths| > 0 && paths[0] !in e.indexedFiles && Read(fs, paths[0]).Ok? {
      AddFileKeepsConsistent(e, fs, paths[0], Read(fs, paths[0]).value);
      IndexPathsKeepsConsistent(AddFile(e, paths[0], Read(fs, paths[0]).value), fs, paths[1..]);
    } else if |paths| > 0 && paths[0] in e.indexedFiles {
      IndexPathsKeepsConsistent(e, fs, paths[1..]);
    }
  }

  /**
   * index_files keeps the engine invariant: in particular there is never
   * more than one posting per (term, file), and every posting carries the
   * exact occurrence count of its term in its file.
   */
  lemma IndexFilesKeepsConsistent(e: Engine, fs: FileSystem, folder: Path)
    requires Consistent(e, fs)
    ensures Consistent(IndexFiles(e, fs, folder).engine, fs)
  {
    if folder in fs.dirs {
      IndexPathsKeepsConsistent(e, fs, TxtPaths(folder, fs.dirs[folder]));
    }
  }

  /** A batch only ever adds files, and only files of the batch. */
  lemma {:induction false} IndexPathsGrows(e: Engine, fs: FileSystem, paths: seq<Path>)
    ensures var e' := IndexPaths(e, fs, paths).engine;
            e.indexedFiles <= e'.indexedFiles <= e.indexedFiles + Elements(paths)
    decreases |paths|
  {
    if |paths| > 0 {
      if paths[0] in e.indexedFiles {
        IndexPathsGrows(e, fs, paths[1..]);
      } else if Read(fs, paths[0]).Ok? {
        IndexPathsGrows(AddFile(e, paths[0], Read(fs, paths[0]).value), fs, paths[1..]);
      }
    }
  }

  /** Running the same batch again on its own result changes nothing and ends the same way. */
  lemma {:induction false} IndexPathsIdempotent(e: Engine, fs: FileSystem, paths: seq<Path>)
    ensures var b := IndexPaths(e, fs, paths);
            IndexPaths(b.engine, fs, paths) == b
    decreases |paths|
  {
    if |paths| > 0 {
      var b := IndexPaths(e, fs, paths);
      if paths[0] in e.indexedFiles {
        IndexPathsGrows(e, fs, paths[1..]);
        IndexPathsIdempotent(e, fs, paths[1..]);
      } else if Read(fs, paths[0]).Ok? {
        var e1 := AddFile(e, paths[0], Read(fs, paths[0]).value);
        IndexPathsGrows(e1, fs, paths[1..]);
        IndexPathsIdempotent(e1, fs, paths[1..]);
      }
    }
  }

  /**
   * Re-indexing a folder is idempotent: a second index_files on the same
   * folder leaves index and indexed_files as the first left them (and
   * reports the same outcome).
   */
  lemma IndexFilesIdempotent(e: Engine, fs: FileSystem, folder: Path)
    ensures var r := IndexFiles(e, fs, folder);
            IndexFiles(r.engine, fs, folder) == r
  {
    if folder in fs.dirs {
      IndexPathsIdempotent(e, fs, TxtPaths(folder, fs.dirs[folder]));
    }
  }

  /** A batch that runs through marks every candidate path indexed. */
  lemma {:induction false} IndexPathsCompletes(e: Engine, fs: FileSystem, paths: seq<Path>)
    requires IndexPaths(e, fs, paths).failure.None?
    ensures IndexPaths(e, fs, paths).engine.indexedFiles == e.indexedFiles + Elements(paths)
    decreases |paths|
  {
    if |paths| > 0 {
      if paths[0] in e.indexedFiles {
        IndexPathsCompletes(e, fs, paths[1..]);
      } else {
        IndexPathsCompletes(AddFile(e, paths[0], Read(fs, paths[0]).value), fs, paths[1..]);
      }
      ElementsConcat([paths[0]], paths[1..]);
      assert paths == [paths[0]] + paths[1..];
    }
  }

  /**
   * A batch that stops at a failed read keeps every file processed before
   * it indexed, and indexes neither the failing file nor any file after it.
   */
  lemma {:induction false} IndexPathsStopsAtFailure(e: Engine, fs: FileSystem, paths: seq<Path>)
    requires IndexPaths(e, fs, paths).failure.Some?
    ensures var b := IndexPaths(e, fs, paths);
            exists k | 0 <= k < |paths| ::
              && paths[k] == b.failure.value.path
              && paths[k] !in b.engine.indexedFiles
              && Read(fs, paths[k]) == Err(b.failure.value.error)
              && b.engine.indexedFiles == e.indexedFiles + Elements(paths[..k])
    decreases |paths|
  {
    var b := IndexPaths(e, fs, paths);
    if paths[0] in e.indexedFiles || Read(fs, paths[0]).Ok? {
      var e1 := if paths[0] in e.indexedFiles then e else AddFile(e, paths[0], Read(fs, paths[0]).value);
      IndexPathsStopsAtFailure(e1, fs, paths[1..]);
      var k :| 0 <= k < |paths[1..]|
              && paths[1..][k] == b.failure.value.path
              && paths[1..][k] !in b.engine.indexedFiles
              && Read(fs, paths[1..][k]) == Err(b.failure.value.error)
              && b.engine.indexedFiles == e1.indexedFiles + Elements(paths[1..][..k]);
      assert paths[..k + 1] == [paths[0]] + paths[1..][..k];
      ElementsConcat([paths[0]], paths[1..][..k]);
      assert paths[k + 1] == paths[1..][k];
    } else {
      assert paths[..0] == [];
      assert Elements(paths[..0]) == {};
    }
  }

  /**
   * get_file_content(file_path): ValueError for an empty path,
   * FileNotFoundError for a path never indexed (whether or not the file
   * exists), otherwise the file's text, with a vanished file reported as
   * FileNotFoundError and any other read failure as a plain Exception.
   */
  function GetFileContent(e: Engine, fs: FileSystem, path: Path): (r: Outcome<string>)
    ensures path == "" ==> r == Err(ValueError)
    ensures path != "" && path !in e.indexedFiles ==> r == Err(FileNotFoundError)
    ensures r.Ok? <==> path != "" && path in e.indexedFiles && Read(fs, path).Ok?
    ensures r.Ok? ==> r.value == fs.files[path].value
    ensures path != "" && path in e.indexedFiles && path !in fs.files ==> r == Err(FileNotFoundError)
    ensures r.Err? && path != "" && path in e.indexedFiles && path in fs.files ==> r.error == Exception
  {
    if path == "" then Err(ValueError)
    else if path !in e.indexedFiles then Err(FileNotFoundError)
    else
      match Read(fs, path)
      case Ok(text) => Ok(text)
      case Err(err) => Err(if err == FileNotFoundError then FileNotFoundError else Exception)
  }

  /** A file the engine indexed is served with the text that was read when it was indexed. */
  lemma IndexedFileIsServed(e: Engine, fs: FileSystem, path: Path)
    requires Consistent(e, fs) && path in e.indexedFiles && path != ""
    ensures path in fs.files && fs.files[path].Some?
    ensures GetFileContent(e, fs, path) == Ok(fs.files[path].value)
  {
    assert Read(fs, path).Ok?;
  }

  /** The index setter: a dict replaces the index, anything else raises TypeError. */
  function SetIndex(e: Engine, value: Arg<Index>): (r: Outcome<Engine>)
    ensures r.Err? <==> value.NotInstance?
    ensures r.Err? ==> r.error == TypeError
    ensures r.Ok? ==> r.value.index == value.obj && r.value.indexedFiles == e.indexedFiles
  {
    match value
    case Instance(m) => Ok(e.(index := m))
    case NotInstance => Err(TypeError)
  }

  /**
   * Tokenization symmetry: for a file the engine has indexed, a query made
   * of that file's text in any letter case finds every one of its terms,
   * each with the file's posting and exact count among the results.
   */
  lemma QueryFindsIndexedFile(e: Engine, fs: FileSystem, f: Path, query: string)
    requires Consistent(e, fs) && f in e.indexedFiles
    requires Lower(query) == Lower(fs.files[f].value)
    ensures var r := Search(e.index, query);
            var words := DocTokens(fs, f);
            forall t | t in words :: t in r && WordInfo(f, Occurrences(words, t)) in r[t]
  {
    var r := Search(e.index, query);
    var words := DocTokens(fs, f);
    assert Tokenize(query) == words;
    forall t | t in words ensures t in r && WordInfo(f, Occurrences(words, t)) in r[t] {
      assert WordInfo(f, Occurrences(words, t)) in PostingsOf(e.index, t);
      assert WordInfo(f, Occurrences(words, t)) in multiset(e.index[t]);
    }
  }
}
