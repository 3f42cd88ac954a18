/**
 * The part of the operating system's file system that the configuration and diagnostics code
 * touches: whole-file reads and writes, existence checks and directory creation. A `Disk` is a
 * value (the state of the file system at one moment); `FileSystem` is the mutable file system the
 * imperative code works on, and each of its methods is specified by the function on `Disk`
 * values with the same name.
 */
module FileSystem {
  import opened Wrappers

  /** A path, compared as text (`PathBuf` equality by components is not modelled). */
  type Path = string

  /** `Path::join` with a relative name: a separator is inserted unless the directory already ends in one. */
  function Join(dir: Path, name: string): (p: Path)
  {
    if dir == [] || dir[|dir| - 1] == '/' then dir + name else dir + "/" + name
  }

  /** Joining puts the name at the end of the path. */
  lemma JoinEndsWithName(dir: Path, name: string)
    ensures |Join(dir, name)| >= |name|
    ensures Join(dir, name)[|Join(dir, name)| - |name|..] == name
  {
  }

  /** Joining is injective in the name: under one directory, different names give different paths. */
  lemma {:induction false} JoinInjective(dir: Path, a: string, b: string)
    requires Join(dir, a) == Join(dir, b)
    ensures a == b
  {
    var p := Join(dir, a);
    var k := if dir == [] || dir[|dir| - 1] == '/' then |dir| else |dir| + 1;
    assert p[k..] == a;
    assert Join(dir, b)[k..] == b;
  }

  /** File contents: text, or a zip archive (a sequence of named entries). Bytes are not modelled. */
  datatype Blob = Text(text: string) | Archive(entries: seq<Entry>)

  /** One archive entry: its name and the data stored under it. */
  datatype Entry = Entry(name: string, data: Blob)

  /** The `std::io::Error`s the code can meet, with the path they concern. */
  datatype IoError =
    | NotFound(path: Path)
    | IsADirectory(path: Path)
    | AlreadyExists(path: Path)
    | InvalidUtf8(path: Path)
    | Failed(path: Path, reason: string)
  {
    /** What the error prints as (`Display` of `std::io::Error` on Linux). */
    function Message(): string {
      match this
      case NotFound(_) => "No such file or directory (os error 2)"
      case IsADirectory(_) => "Is a directory (os error 21)"
      case AlreadyExists(_) => "File exists (os error 17)"
      case InvalidUtf8(_) => "stream did not contain valid UTF-8"
      case Failed(_, reason) => reason
    }
  }

  /**
   * The file system at one moment: the regular files with their contents, the directories, and the
   * paths at which the environment makes every operation fail (permissions, a full disk, a missing
   * parent directory), with the message of that failure.
   */
  datatype Disk = Disk(files: map<Path, Blob>, dirs: set<Path>, failing: map<Path, string>)

  /** `Path::exists`: there is a file or a directory at p. */
  predicate Exists(d: Disk, p: Path) {
    p in d.files || p in d.dirs
  }

  /** `fs::write` and `File::create`: create or truncate the file at p and store b in it. */
  function Write(d: Disk, p: Path, b: Blob): (r: (Result<(), IoError>, Disk))
  {
    if p in d.failing then (Err(Failed(p, d.failing[p])), d)
    else if p in d.dirs then (Err(IsADirectory(p)), d)
    else (Ok(()), d.(files := d.files[p := b]))
  }

  /** `File::open` followed by reading to the end: the contents of the file at p. */
  function Read(d: Disk, p: Path): (r: Result<Blob, IoError>)
  {
    if p in d.failing then Err(Failed(p, d.failing[p]))
    else if p in d.dirs then Err(IsADirectory(p))
    else if p !in d.files then Err(NotFound(p))
    else Ok(d.files[p])
  }

  /** `fs::read_to_string`: as `Read`, and the contents must be text. */
  function ReadText(d: Disk, p: Path): (r: Result<string, IoError>)
  {
    match Read(d, p)
    case Err(e) => Err(e)
    case Ok(Text(t)) => Ok(t)
    case Ok(Archive(_)) => Err(InvalidUtf8(p))
  }

  /** `fs::create_dir_all` (ancestors are not modelled): p becomes a directory unless a file is there. */
  function MakeDirs(d: Disk, p: Path): (r: (Result<(), IoError>, Disk))
  {
    if p in d.failing then (Err(Failed(p, d.failing[p])), d)
    else if p in d.files then (Err(AlreadyExists(p)), d)
    else (Ok(()), d.(dirs := d.dirs + {p}))
  }

  /** A write succeeds exactly at a path that does not fail and is not a directory; then only that file changes. */
  lemma WriteOutcome(d: Disk, p: Path, b: Blob)
    ensures Write(d, p, b).0.Ok? <==> p !in d.failing && p !in d.dirs
    ensures Write(d, p, b).0.Ok? ==> Read(Write(d, p, b).1, p) == Ok(b)
    ensures Write(d, p, b).0.Err? ==> Write(d, p, b).1 == d
    ensures forall q :: q != p ==> Read(Write(d, p, b).1, q) == Read(d, q)
  {
  }

  /** A read succeeds exactly at an existing regular file that does not fail, and returns its contents. */
  lemma ReadOutcome(d: Disk, p: Path)
    ensures Read(d, p).Ok? <==> p !in d.failing && p !in d.dirs && p in d.files
    ensures Read(d, p).Ok? ==> Read(d, p).value == d.files[p]
  {
  }

  /** Directory creation succeeds exactly where nothing fails and no file is in the way; afterwards p exists. */
  lemma MakeDirsOutcome(d: Disk, p: Path)
    ensures MakeDirs(d, p).0.Ok? <==> p !in d.failing && p !in d.files
    ensures MakeDirs(d, p).0.Ok? ==> Exists(MakeDirs(d, p).1, p) && MakeDirs(d, p).1.files == d.files
    ensures MakeDirs(d, p).0.Err? ==> MakeDirs(d, p).1 == d
  {
  }

  /** The mutable file system. */
  class FileSystem {
    var files: map<Path, Blob>
    var dirs: set<Path>
    const failing: map<Path, string>

    /** The current state as a value. */
    function State(): Disk
      reads this
    {
      Disk(files, dirs, failing)
    }

    constructor(d: Disk)
      ensures State() == d
    {
      files := d.files;
      dirs := d.dirs;
      failing := d.failing;
    }

    /** `Path::exists`. */
    method PathExists(p: Path) returns (b: bool)
      ensures b == Exists(State(), p)
    {
      b := p in files || p in dirs;
    }

    /** `fs::write` / `File::create`. */
    method WriteFile(p: Path, b: Blob) returns (r: Result<(), IoError>)
      modifies this
      ensures (r, State()) == Write(old(State()), p, b)
    {
      if p in failing {
        r := Err(Failed(p, failing[p]));
      } else if p in dirs {
        r := Err(IsADirectory(p));
      } else {
        files := files[p := b];
        r := Ok(());
      }
    }

    /** Writing through a handle that is already open: no open-time failure applies. */
    method Overwrite(p: Path, b: Blob)
      modifies this
      ensures State() == old(State()).(files := old(files)[p := b])
    {
      files := files[p := b];
    }

    /** `File::open` and read to the end. */
    method ReadFile(p: Path) returns (r: Result<Blob, IoError>)
      ensures r == Read(State(), p)
    {
      if p in failing {
        r := Err(Failed(p, failing[p]));
      } else if p in dirs {
        r := Err(IsADirectory(p));
      } else if p !in files {
        r := Err(NotFound(p));
      } else {
        r := Ok(files[p]);
      }
    }

    /** `fs::read_to_string`. */
    method ReadToString(p: Path) returns (r: Result<string, IoError>)
      ensures r == ReadText(State(), p)
    {
      var b := ReadFile(p);
      match b
      case Err(e) => r := Err(e);
      case Ok(Text(t)) => r := Ok(t);
      case Ok(Archive(_)) => r := Err(InvalidUtf8(p));
    }

    /** `fs::create_dir_all`. */
    method CreateDirAll(p: Path) returns (r: Result<(), IoError>)
      modifies this
      ensures (r, State()) == MakeDirs(old(State()), p)
    {
      if p in failing {
        r := Err(Failed(p, failing[p]));
      } else if p in files {
        r := Err(AlreadyExists(p));
      } else {
        dirs := dirs + {p};
        r := Ok(());
      }
    }
  }
}
