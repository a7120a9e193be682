/** The local disk as the download and decompression stages see it: the
    paths that exist and the size of each one's content in bytes. */
module FileSystem {

  /** `os.path.join(folder, name)` on Windows for a plain file name: a
      backslash goes between the two unless the folder is empty or already
      ends in a separator. */
  function PathJoin(folder: string, name: string): (path: string)
    ensures |path| >= |name| && path[|path| - |name|..] == name
    ensures path == folder + name || path == folder + "\\" + name
    ensures folder == [] || folder[|folder| - 1] in {'\\', '/', ':'} <==> path == folder + name
  {
    PathPrefix(folder) + name
  }

  /** What `PathJoin` puts in front of a file name. */
  function PathPrefix(folder: string): string {
    if folder == [] || folder[|folder| - 1] in {'\\', '/', ':'} then folder else folder + "\\"
  }

  /** Joining is injective in the file name: two paths under the same folder
      are equal exactly when the names are. */
  lemma PathJoinInjective(folder: string, a: string, b: string)
    ensures PathJoin(folder, a) == PathJoin(folder, b) <==> a == b
  {
    var p := PathPrefix(folder);
    if PathJoin(folder, a) == PathJoin(folder, b) {
      assert a == (p + a)[|p|..] == (p + b)[|p|..] == b;
    }
  }

  class Disk {
    /** Every existing file, with the number of bytes it holds. */
    var files: map<string, nat>

    constructor (initial: map<string, nat>)
      ensures files == initial
    {
      files := initial;
    }

    /** `os.path.exists(path)`. */
    predicate Exists(path: string)
      reads this
    {
      path in files
    }

    /** `open(path, 'wb')` followed by writing `size` bytes: the file is
        created or truncated and then holds exactly those bytes. */
    method Write(path: string, size: nat)
      modifies this
      ensures files == old(files)[path := size]
    {
      files := files[path := size];
    }

    /** `os.remove(path)`; the file must exist. */
    method Remove(path: string)
      requires path in files
      modifies this
      ensures files == old(files) - {path}
    {
      files := files - {path};
    }
  }
}
