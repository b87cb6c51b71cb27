/** The local filesystem as the set of paths that exist. */
module LocalFs {

  class FileSystem {
    var paths: set<string>

    constructor (initial: set<string>)
      ensures paths == initial
    {
      paths := initial;
    }

    /** `os.path.exists`. */
    method Exists(path: string) returns (present: bool)
      ensures present <==> path in paths
    {
      present := path in paths;
    }

    /** A new file is created at a path that did not exist. */
    method CreateFile(path: string)
      requires path !in paths
      modifies this
      ensures paths == old(paths) + {path}
    {
      paths := paths + {path};
    }

    /** `os.unlink`: when the operating system refuses, nothing changes and
        the error is the caller's to handle. */
    method Unlink(path: string, succeeds: bool)
      modifies this
      ensures paths == if succeeds then old(paths) - {path} else old(paths)
    {
      if succeeds {
        paths := paths - {path};
      }
    }
  }
}
