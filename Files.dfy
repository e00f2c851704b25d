/** The files on disk, as far as the pipeline creates and removes them. */
module Files {

  /** What `cv2.imwrite` does: writes and reports success, reports failure, or raises. */
  datatype WriteOutcome = Saved | NotSaved | WriteRaised

  class FileStore {
    /** The paths that exist. */
    var files: set<string>

    constructor(initial: set<string>)
      ensures files == initial
    {
      files := initial;
    }

    /** Writing a file creates it, or overwrites the one at that path. */
    method Write(path: string)
      modifies this
      ensures files == old(files) + {path}
    {
      files := files + {path};
    }

    /** `os.remove` of an existing file. */
    method Remove(path: string)
      requires path in files
      modifies this
      ensures files == old(files) - {path}
    {
      files := files - {path};
    }
  }
}
