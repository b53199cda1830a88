/**
 * The file system as the search engines see it: directory listings (what
 * os.path.isdir and os.listdir report) and file contents (what open().read()
 * returns), with os.path.join and the ".txt" filter.
 */
module Files {
  import opened Wrappers
  import opened Python
  import opened Text
  import opened Postings

  /**
   * dirs maps each directory to its listing in os.listdir order; files maps
   * a path to Some(text) when it can be read and decoded as UTF-8, and to
   * None when reading or decoding raises. A path in neither does not exist.
   */
  datatype FileSystem = FileSystem(dirs: map<Path, seq<string>>, files: map<Path, Option<string>>)

  /** os.listdir never reports a name twice, and names never contain '/'. */
  predicate ValidListing(names: seq<string>) {
    && (forall i, j | 0 <= i < j < |names| :: names[i] != names[j])
    && (forall i | 0 <= i < |names| :: '/' !in names[i])
  }

  predicate ValidFileSystem(fs: FileSystem) {
    forall d | d in fs.dirs :: ValidListing(fs.dirs[d])
  }

  /** os.path.join(folder, name) with POSIX separators. */
  function Join(folder: Path, name: string): Path {
    if |name| > 0 && name[0] == '/' then name
    else if folder == "" || folder[|folder| - 1] == '/' then folder + name
    else folder + "/" + name
  }

  /** Names without a separator join to distinct paths. */
  lemma JoinInjective(folder: Path, a: string, b: string)
    requires '/' !in a && '/' !in b
    requires Join(folder, a) == Join(folder, b)
    ensures a == b
  {
    if |a| > 0 {
      assert a[0] in a;
    }
    if |b| > 0 {
      assert b[0] in b;
    }
    var p := if folder == "" || folder[|folder| - 1] == '/' then folder else folder + "/";
    assert Join(folder, a) == p + a && Join(folder, b) == p + b;
    assert a == (p + a)[|p|..];
    assert b == (p + b)[|p|..];
  }

  /** The ".txt" entries of a listing, joined to the folder, in listing order. */
  function TxtPaths(folder: Path, names: seq<string>): (ps: seq<Path>)
    ensures |ps| <= |names|
  {
    if |names| == 0 then []
    else
      (if EndsWith(names[0], ".txt") then [Join(folder, names[0])] else [])
      + TxtPaths(folder, names[1..])
  }

  /**
   * The candidate paths are exactly the joined ".txt" names of the listing;
   * nothing else in the folder is considered.
   */
  lemma {:induction false} TxtPathsMembers(folder: Path, names: seq<string>, p: Path)
    ensures p in TxtPaths(folder, names) <==>
            exists i | 0 <= i < |names| :: EndsWith(names[i], ".txt") && p == Join(folder, names[i])
  {
    if |names| > 0 {
      TxtPathsMembers(folder, names[1..], p);
      if p in TxtPaths(folder, names[1..]) {
        var i :| 0 <= i < |names[1..]| && EndsWith(names[1..][i], ".txt") && p == Join(folder, names[1..][i]);
        assert names[i + 1] == names[1..][i];
      }
      if exists i | 0 <= i < |names| :: EndsWith(names[i], ".txt") && p == Join(folder, names[i]) {
        var i :| 0 <= i < |names| && EndsWith(names[i], ".txt") && p == Join(folder, names[i]);
        if i > 0 {
          assert names[1..][i - 1] == names[i];
        }
      }
    }
  }

  /** The paths of a sequence, as a set. */
  function Elements(ps: seq<Path>): set<Path> {
    set p | p in ps
  }

  lemma ElementsConcat(a: seq<Path>, b: seq<Path>)
    ensures Elements(a + b) == Elements(a) + Elements(b)
  {
  }

  predicate Distinct(ps: seq<Path>) {
    forall i, j | 0 <= i < j < |ps| :: ps[i] != ps[j]
  }

  /** A valid listing yields each candidate path once. */
  lemma {:induction false} TxtPathsDistinct(folder: Path, names: seq<string>)
    requires ValidListing(names)
    ensures Distinct(TxtPaths(folder, names))
  {
    if |names| > 0 {
      var rest := TxtPaths(folder, names[1..]);
      assert ValidListing(names[1..]) by {
        assert forall i | 0 <= i < |names[1..]| :: names[1..][i] == names[i + 1];
      }
      TxtPathsDistinct(folder, names[1..]);
      if EndsWith(names[0], ".txt") {
        forall k | 0 <= k < |rest| ensures rest[k] != Join(folder, names[0]) {
          TxtPathsMembers(folder, names[1..], rest[k]);
          var i :| 0 <= i < |names[1..]| && EndsWith(names[1..][i], ".txt") && rest[k] == Join(folder, names[1..][i]);
          assert names[1..][i] == names[i + 1];
          if rest[k] == Join(folder, names[0]) {
            JoinInjective(folder, names[i + 1], names[0]);
          }
        }
      }
    }
  }

  /** open(path).read(): the text, FileNotFoundError, or an OSError for unreadable content. */
  function Read(fs: FileSystem, path: Path): (r: Outcome<string>)
    ensures r.Ok? <==> path in fs.files && fs.files[path].Some?
    ensures r.Ok? ==> r.value == fs.files[path].value
    ensures r.Err? ==> r.error == (if path in fs.files then OSError else FileNotFoundError)
  {
    if path !in fs.files then Err(FileNotFoundError)
    else match fs.files[path]
      case Some(text) => Ok(text)
      case None => Err(OSError)
  }
}
