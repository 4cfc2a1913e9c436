/** The part of the file system the scripts touch: directories, and files held
    as their lists of lines (what `readlines` returns and `writelines` writes).
    A path is its list of components, so `os.path.join` appends a component. */
module FileSystems {
  import opened Results
  import Text

  type Path = seq<string>

  /** `os.path.basename(p)`. */
  function Basename(p: Path): string
  {
    if p == [] then "" else p[|p| - 1]
  }

  /** The directory that holds `p`. */
  function Parent(p: Path): Path
    requires p != []
  {
    p[..|p| - 1]
  }

  /** `os.path.join(p, c)`: an empty component names `p` itself. */
  function Child(p: Path, c: string): (r: Path)
    ensures c != "" ==> r != [] && Parent(r) == p && Basename(r) == c
    ensures c == "" ==> r == p
  {
    if c == "" then p else p + [c]
  }

  /** The path as the string handed to a shell command. */
  function Render(p: Path): string
  {
    Text.Join(p, "/")
  }

  /** `p` and everything above it, up to the root. */
  function Prefixes(p: Path): set<Path>
  {
    set k | 0 <= k <= |p| :: p[..k]
  }

  /** The Python exceptions raised by `os` and `shutil`. */
  datatype FsError =
    | NotFound(path: Path)        // FileNotFoundError
    | AlreadyExists(path: Path)   // FileExistsError
    | NotADirectory(path: Path)   // NotADirectoryError
    | IsADirectory(path: Path)    // IsADirectoryError

  class FileSystem {
    var dirs: set<Path>
    var files: map<Path, seq<string>>

    /** The root is a directory, nothing is both a file and a directory, and
        everything above a directory or a file is a directory. */
    ghost predicate Valid()
      reads this
    {
      && [] in dirs
      && dirs !! files.Keys
      && (forall d, k :: d in dirs && 0 <= k <= |d| ==> d[..k] in dirs)
      && (forall f, k :: f in files && 0 <= k < |f| ==> f[..k] in dirs)
    }

    /** `os.path.exists(p)`. */
    predicate Exists(p: Path)
      reads this
    {
      p in dirs || p in files
    }

    constructor ()
      ensures Valid() && dirs == {[]} && files == map[]
    {
      dirs := {[]};
      files := map[];
    }

    /** Nothing lies below a path that does not exist. */
    lemma NothingBelowMissing(p: Path, q: Path)
      requires Valid() && !Exists(p) && |p| <= |q| && q[..|p|] == p
      ensures !Exists(q)
    {
      if |p| == |q| {
        assert q == q[..|p|];
      }
    }

    /** `os.mkdir(p)`. */
    method Mkdir(p: Path) returns (r: Outcome<FsError>)
      requires Valid() && p != []
      modifies this
      ensures Valid() && files == old(files)
      ensures r == (if old(Exists(p)) then Fail(AlreadyExists(p))
                    else if Parent(p) in old(files) then Fail(NotADirectory(p))
                    else if Parent(p) !in old(dirs) then Fail(NotFound(p))
                    else Pass)
      ensures dirs == if r.Pass? then old(dirs) + {p} else old(dirs)
    {
      if Exists(p) {
        return Fail(AlreadyExists(p));
      } else if Parent(p) in files {
        return Fail(NotADirectory(p));
      } else if Parent(p) !in dirs {
        return Fail(NotFound(p));
      }
      forall k | 0 <= k < |p|
        ensures p[..k] in dirs
      {
        assert p[..k] == Parent(p)[..k];
      }
      assert p[..|p|] == p;
      dirs := dirs + {p};
      r := Pass;
    }

    /** `os.makedirs(p)`: creates `p` and every missing directory above it;
        fails if `p` exists or if a file stands where a directory is needed. */
    method Makedirs(p: Path) returns (r: Outcome<FsError>)
      requires Valid()
      modifies this
      ensures Valid() && files == old(files)
      ensures r == (if old(Exists(p)) then Fail(AlreadyExists(p))
                    else if exists k :: 0 <= k < |p| && p[..k] in old(files) then Fail(NotADirectory(p))
                    else Pass)
      ensures dirs == if r.Pass? then old(dirs) + Prefixes(p) else old(dirs)
    {
      if Exists(p) {
        return Fail(AlreadyExists(p));
      }
      if exists k :: 0 <= k < |p| && p[..k] in files {
        return Fail(NotADirectory(p));
      }
      assert p[..|p|] == p;
      var added := Prefixes(p);
      forall q, k | q in added && 0 <= k <= |q|
        ensures q[..k] in added
      {
        var j :| 0 <= j <= |p| && q == p[..j];
        assert q[..k] == p[..k];
      }
      dirs := dirs + added;
      r := Pass;
    }

    /** `shutil.copy2(src, dst)`: when `dst` is a directory the copy is placed
        inside it under the basename of `src`. Returns the path written. */
    method Copy(src: Path, dst: Path) returns (r: Result<Path, FsError>)
      requires Valid()
      modifies this
      ensures Valid() && dirs == old(dirs)
      ensures var target := if dst in old(dirs) then Child(dst, Basename(src)) else dst;
        && r == (if src in old(dirs) then Err(IsADirectory(src))
                 else if src !in old(files) then Err(NotFound(src))
                 else if target in old(dirs) then Err(IsADirectory(target))
                 else if Parent(target) !in old(dirs) then Err(NotFound(target))
                 else Ok(target))
        && files == if r.Ok? then old(files)[target := old(files)[src]] else old(files)
    {
      var target := if dst in dirs then Child(dst, Basename(src)) else dst;
      if src in dirs {
        return Err(IsADirectory(src));
      } else if src !in files {
        return Err(NotFound(src));
      }
      assert src != [];
      if target in dirs {
        return Err(IsADirectory(target));
      }
      assert target != [];
      if Parent(target) !in dirs {
        return Err(NotFound(target));
      }
      forall k | 0 <= k < |target|
        ensures target[..k] in dirs
      {
        assert target[..k] == Parent(target)[..k];
      }
      files := files[target := files[src]];
      r := Ok(target);
    }

    /** `os.rename(src, dst)` for a file `src`: an existing file at `dst` is
        replaced. */
    method Rename(src: Path, dst: Path) returns (r: Outcome<FsError>)
      requires Valid() && src !in dirs
      modifies this
      ensures Valid() && dirs == old(dirs)
      ensures r == (if src !in old(files) then Fail(NotFound(src))
                    else if dst in old(dirs) then Fail(IsADirectory(dst))
                    else if Parent(dst) !in old(dirs) then Fail(NotFound(dst))
                    else Pass)
      ensures files == if r.Pass? then (old(files) - {src})[dst := old(files)[src]] else old(files)
    {
      if src !in files {
        return Fail(NotFound(src));
      } else if dst in dirs {
        return Fail(IsADirectory(dst));
      }
      assert dst != [];
      if Parent(dst) !in dirs {
        return Fail(NotFound(dst));
      }
      forall k | 0 <= k < |dst|
        ensures dst[..k] in dirs
      {
        assert dst[..k] == Parent(dst)[..k];
      }
      files := (files - {src})[dst := files[src]];
      r := Pass;
    }

    /** `open(p).readlines()`. */
    method ReadLines(p: Path) returns (r: Result<seq<string>, FsError>)
      ensures r == if p in files then Ok(files[p])
                   else if p in dirs then Err(IsADirectory(p))
                   else Err(NotFound(p))
    {
      if p in files {
        r := Ok(files[p]);
      } else if p in dirs {
        r := Err(IsADirectory(p));
      } else {
        r := Err(NotFound(p));
      }
    }

    /** `open(p, 'w').writelines(lines)`: creates or truncates the file. */
    method WriteLines(p: Path, lines: seq<string>) returns (r: Outcome<FsError>)
      requires Valid()
      modifies this
      ensures Valid() && dirs == old(dirs)
      ensures r == (if p in old(dirs) then Fail(IsADirectory(p))
                    else if Parent(p) !in old(dirs) then Fail(NotFound(p))
                    else Pass)
      ensures files == if r.Pass? then old(files)[p := lines] else old(files)
    {
      if p in dirs {
        return Fail(IsADirectory(p));
      }
      assert p != [];
      if Parent(p) !in dirs {
        return Fail(NotFound(p));
      }
      forall k | 0 <= k < |p|
        ensures p[..k] in dirs
      {
        assert p[..k] == Parent(p)[..k];
      }
      files := files[p := lines];
      r := Pass;
    }
  }
}
