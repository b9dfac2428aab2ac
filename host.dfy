/**
 * The boundary between the two scripts and what they run against: the
 * environment variables, directory listings, the file system and the tally
 * each stage reports.
 */
module Host {

  datatype Option<+T> = None | Some(value: T)

  type Path = string

  /** What `statSync(...)` says about an entry; `Unstatable` is a call that throws. */
  datatype Kind = File | Directory | Other | Unstatable

  /** One name returned by `readdirSync`, with the result of `statSync` on it. */
  datatype Entry = Entry(name: string, kind: Kind)

  /** The two environment variables the scripts read; `None` is an unset variable. */
  datatype Config = Config(pngFolderName: Option<string>, r2Bucket: Option<string>)

  /** `process.env.X || ''` */
  function OrEmpty(v: Option<string>): (r: string)
    ensures r == "" <==> v.None? || v.value == ""
    ensures v.Some? ==> r == v.value
  {
    match v
    case Some(x) => x
    case None => ""
  }

  /** `${process.env.X}` in a template literal: an unset variable prints as "undefined". */
  function Interpolate(v: Option<string>): (r: string)
    ensures v.Some? ==> r == OrEmpty(v)
    ensures v.None? ==> r == "undefined"
  {
    match v
    case Some(x) => x
    case None => "undefined"
  }

  /** `!!process.env.X`: set and not empty. */
  predicate IsSet(v: Option<string>): (r: bool)
    ensures r <==> OrEmpty(v) != ""
  {
    v.Some? && v.value != ""
  }

  /** `path.join(dir, name)`, without path normalisation. */
  function Join(dir: Path, name: string): Path
  {
    dir + "/" + name
  }

  /** A joined path splits back into its folder and its name, so one folder never joins two names alike. */
  lemma JoinSplits(dir: Path, name: string, other: string)
    ensures var p := Join(dir, name);
      |p| == |dir| + 1 + |name| && p[..|dir|] == dir && p[|dir|] == '/' && p[|dir| + 1..] == name
    ensures Join(dir, name) == Join(dir, other) <==> name == other
  {
    var p, q := Join(dir, name), Join(dir, other);
    assert p[|dir| + 1..] == name;
    assert q[|dir| + 1..] == other;
  }

  /** `existsSync(p)` over a snapshot of the file system; the empty path never exists. */
  predicate PathExists(directories: set<Path>, files: set<Path>, p: Path)
  {
    p != "" && (p in directories || p in files)
  }

  /** The tally a stage prints at its end. */
  datatype Report = Report(total: nat, succeeded: nat, failed: nat)

  /** The part of the file system the scripts observe and change. */
  class FileSystem {
    var directories: set<Path>
    var files: set<Path>

    constructor (directories: set<Path>, files: set<Path>)
      ensures this.directories == directories && this.files == files
    {
      this.directories := directories;
      this.files := files;
    }

    predicate Exists(p: Path)
      reads this
    {
      PathExists(directories, files, p)
    }

    /** `mkdirSync(p, { recursive: true })` when it succeeds. */
    method MakeDirectory(p: Path)
      modifies this
      ensures directories == old(directories) + {p}
      ensures files == old(files)
    {
      directories := directories + {p};
    }

    /** The codec's `toFile(p)` when it succeeds. */
    method WriteFile(p: Path)
      modifies this
      ensures files == old(files) + {p}
      ensures directories == old(directories)
    {
      files := files + {p};
    }
  }
}
