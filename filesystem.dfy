/** The part of the operating system the core touches: a map from paths to
    file contents, with a fault model saying which operations fail with an
    error other than "does not exist". Directories themselves are not
    represented; path joining and taking the parent directory are abstract. */
module FileSystem {
  import opened Base

  /** Paths whose `os.Remove` fails with an error other than "not exist",
      directories whose `os.MkdirAll` fails, paths whose
      `ioutil.WriteFile` fails. */
  datatype Faults = Faults(remove: set<Path>, mkdir: set<Path>, write: set<Path>)

  /** `filepath.Join` and `filepath.Dir`, left abstract: Join cleans `.` and
      `..`, so no injectivity is assumed anywhere. */
  datatype PathOps = PathOps(join: (Path, Path) -> Path, dir: Path -> Path)

  /** Outcome of `os.Remove`: success, an error satisfying `os.IsNotExist`,
      or any other error. */
  datatype RemoveResult = Removed | NotExist | RemoveFailed

  class FileSystem {
    var files: map<Path, Bytes>
    const faults: Faults

    constructor (files: map<Path, Bytes>, faults: Faults)
      ensures this.files == files && this.faults == faults
    {
      this.files := files;
      this.faults := faults;
    }

    /** `os.Remove(p)`. */
    method Remove(p: Path) returns (r: RemoveResult)
      modifies this
      ensures r == RemoveFailed <==> p in faults.remove
      ensures r == NotExist <==> p !in faults.remove && p !in old(files)
      ensures files == if r == RemoveFailed then old(files) else old(files) - {p}
    {
      if p in faults.remove {
        r := RemoveFailed;
      } else if p !in files {
        r := NotExist;
      } else {
        r := Removed;
        files := files - {p};
      }
    }

    /** `os.MkdirAll(d, 0666)`; it creates no file. Its contract is the fault
        model itself (the operating system's answer), not a derived property. */
    method MkdirAll(d: Path) returns (ok: bool)
      ensures ok <==> d !in faults.mkdir
    {
      ok := d !in faults.mkdir;
    }

    /** `ioutil.WriteFile(p, data, 0666)`: a whole-file overwrite. */
    method WriteFile(p: Path, data: Bytes) returns (ok: bool)
      modifies this
      ensures ok <==> p !in faults.write
      ensures files == if ok then old(files)[p := data] else old(files)
    {
      ok := p !in faults.write;
      if ok {
        files := files[p := data];
      }
    }
  }
}
