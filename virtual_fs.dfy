/** The three operations of the PHP runtime's in-memory filesystem the patcher uses. */
module VirtualFs {

  /** `d` is `path` or a prefix of it that ends just before a `/`. */
  predicate IsDirPrefix(d: string, path: string) {
    0 < |d| <= |path| && d == path[..|d|] && (|d| == |path| || path[|d|] == '/')
  }

  /** The directories `mkdirTree(path)` makes sure exist: `path` and every ancestor. */
  function DirTree(path: string): (dirs: set<string>)
    ensures forall d :: d in dirs <==> IsDirPrefix(d, path)
  {
    set i | 0 < i <= |path| && (i == |path| || path[i] == '/') :: path[..i]
  }

  lemma DirTreeContainsPath(path: string)
    requires path != ""
    ensures path in DirTree(path)
  {
    assert IsDirPrefix(path, path);
  }

  /** Files keyed by path, plus the set of existing directories. */
  class FileSystem {
    var files: map<string, string>
    var dirs: set<string>

    constructor (files: map<string, string>, dirs: set<string>)
      ensures this.files == files && this.dirs == dirs
    {
      this.files := files;
      this.dirs := dirs;
    }

    method ReadFileAsText(path: string) returns (text: string)
      requires path in files
      ensures text == files[path]
    {
      text := files[path];
    }

    /** Creates or overwrites the file at `path`. */
    method WriteFile(path: string, data: string)
      modifies this
      ensures files == old(files)[path := data]
      ensures dirs == old(dirs)
    {
      files := files[path := data];
    }

    /** Creates `path` and any missing ancestors; directories that exist are kept. */
    method MkdirTree(path: string)
      modifies this
      ensures dirs == old(dirs) + DirTree(path)
      ensures files == old(files)
    {
      dirs := dirs + DirTree(path);
    }
  }
}
