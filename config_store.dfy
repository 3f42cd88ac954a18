/**
 * Loading the settings at start-up (`load_or_create_config`): make sure the application's data
 * directory exists, then read `config.toml` in it, or, on first start, write one holding the
 * default settings with the data paths resolved against that directory.
 */
module ConfigStore {
  import opened Wrappers
  import opened FileSystem
  import opened Config
  import opened Toml
  import opened State

  /** Why start-up could not produce the settings. */
  datatype LoadError =
    | Io(error: IoError)     // an operating-system error, passed on unchanged
    | Malformed(path: Path)  // "Failed to parse TOML from {path:?}"

  /** Where the settings of a data directory are saved. */
  function ConfigPath(dir: Path): Path
  {
    Join(dir, "config.toml")
  }

  /** The settings written on first start: the defaults, with the database and videos inside dir. */
  function InitialConfig(dir: Path): Config
  {
    var c := Default();
    c.(data := c.data.(databasePath := Join(dir, "data.db"), videoStoragePath := Join(dir, "videos")))
  }

  /** Start-up on a disk value: the settings and the path they were loaded from, and the disk afterwards. */
  function LoadOrCreate(d: Disk, dir: Path): (Result<(Config, Path), LoadError>, Disk)
  {
    var made := if Exists(d, dir) then (Ok(()), d) else MakeDirs(d, dir);
    if made.0.Err? then (Err(Io(made.0.error)), made.1)
    else
      var d1 := made.1;
      var p := ConfigPath(dir);
      if !Exists(d1, p) then
        var c := InitialConfig(dir);
        var w := Write(d1, p, Text(Serialize(c)));
        if w.0.Err? then (Err(Io(w.0.error)), w.1) else (Ok((c, p)), w.1)
      else
        match ReadText(d1, p)
        case Err(e) => (Err(Io(e)), d1)
        case Ok(t) =>
          match Parse(t)
          case None => (Err(Malformed(p)), d1)
          case Some(c) => (Ok((c, p)), d1)
  }

  /** What a start-up result says, as a value: the state's settings and path, or the error. */
  function Loaded(r: Result<AppState, LoadError>): Result<(Config, Path), LoadError>
    reads if r.Ok? then {r.value} else {}
  {
    match r
    case Ok(s) => Ok((s.config, s.configPath))
    case Err(e) => Err(e)
  }

  /** `load_or_create_config`: builds the application's state from the data directory dir. */
  method LoadOrCreateConfig(fs: FileSystem, dir: Path) returns (r: Result<AppState, LoadError>)
    modifies fs
    ensures r.Ok? ==> fresh(r.value)
    ensures (Loaded(r), fs.State()) == LoadOrCreate(old(fs.State()), dir)
  {
    var dirExists := fs.PathExists(dir);
    if !dirExists {
      var made := fs.CreateDirAll(dir);
      if made.Err? {
        return Err(Io(made.error));
      }
    }
    var path := Join(dir, "config.toml");
    var present := fs.PathExists(path);
    if !present {
      var config := Default();
      config := config.(data := config.data.(databasePath := Join(dir, "data.db")));
      config := config.(data := config.data.(videoStoragePath := Join(dir, "videos")));
      var written := fs.WriteFile(path, Text(Serialize(config)));
      if written.Err? {
        return Err(Io(written.error));
      }
      var state := new AppState(config, path);
      r := Ok(state);
    } else {
      var text := fs.ReadToString(path);
      if text.Err? {
        return Err(Io(text.error));
      }
      var parsed := Parse(text.value);
      if parsed.None? {
        return Err(Malformed(path));
      }
      var state := new AppState(parsed.value, path);
      r := Ok(state);
    }
  }

  /** The settings file is never the data directory itself. */
  lemma ConfigPathIsNotDir(dir: Path)
    ensures ConfigPath(dir) != dir
  {
    assert |ConfigPath(dir)| > |dir|;
  }

  /**
   * Whatever branch it takes, a successful start-up returns the settings file of dir, leaves dir
   * existing, and the file on disk holds exactly the settings returned.
   */
  lemma {:induction false} LoadOrCreateAgreesWithDisk(d: Disk, dir: Path)
    requires LoadOrCreate(d, dir).0.Ok?
    ensures LoadOrCreate(d, dir).0.value.1 == ConfigPath(dir)
    ensures Exists(LoadOrCreate(d, dir).1, dir)
    ensures var d' := LoadOrCreate(d, dir).1;
      ReadText(d', ConfigPath(dir)).Ok? &&
      Parse(ReadText(d', ConfigPath(dir)).value) == Some(LoadOrCreate(d, dir).0.value.0)
  {
    ConfigPathIsNotDir(dir);
    var p := ConfigPath(dir);
    var d1 := (if Exists(d, dir) then (Ok(()), d) else MakeDirs(d, dir)).1;
    if !Exists(d1, p) {
      var c := InitialConfig(dir);
      assert LoadOrCreate(d, dir) == (Ok((c, p)), d1.(files := d1.files[p := Text(Serialize(c))]));
      ParseSerialize(c);
    } else {
      var t := ReadText(d1, p).value;
      assert LoadOrCreate(d, dir) == (Ok((Parse(t).value, p)), d1);
    }
  }

  /**
   * First start: when nothing is at the settings path, start-up succeeds exactly when neither the
   * directory creation nor the write is refused, and then returns the defaults (no cameras,
   * 1280x720 at 30 frames per second, 90 days, port 8080) with the database `data.db` and the
   * video folder `videos` inside dir.
   */
  lemma LoadOrCreateCreatesDefault(d: Disk, dir: Path)
    requires !Exists(d, ConfigPath(dir))
    ensures var (r, d') := LoadOrCreate(d, dir);
      (r.Ok? <==> (Exists(d, dir) || dir !in d.failing) && ConfigPath(dir) !in d.failing) &&
      (r.Ok? ==>
        var c := r.value.0;
        c.camera == CameraConfig("", "", "1280x720", 30) &&
        c.data == DataConfig(Join(dir, "data.db"), Join(dir, "videos"), 90) &&
        c.network == NetworkConfig(8080))
  {
    ConfigPathIsNotDir(dir);
    var p := ConfigPath(dir);
    var made := if Exists(d, dir) then (Ok(()), d) else MakeDirs(d, dir);
    if made.0.Ok? {
      var d1 := made.1;
      assert d1.files == d.files && d1.failing == d.failing && !Exists(d1, p);
      var c := InitialConfig(dir);
      var w := Write(d1, p, Text(Serialize(c)));
      assert LoadOrCreate(d, dir) == (if w.0.Err? then (Err(Io(w.0.error)), w.1) else (Ok((c, p)), w.1));
    }
  }

  /** On first start the settings returned are saved to the settings file, and no other file changes. */
  lemma LoadOrCreateSavesDefault(d: Disk, dir: Path)
    requires !Exists(d, ConfigPath(dir))
    requires LoadOrCreate(d, dir).0.Ok?
    ensures LoadOrCreate(d, dir).1.files ==
      d.files[ConfigPath(dir) := Text(Serialize(LoadOrCreate(d, dir).0.value.0))]
  {
    ConfigPathIsNotDir(dir);
    var p := ConfigPath(dir);
    var d1 := (if Exists(d, dir) then (Ok(()), d) else MakeDirs(d, dir)).1;
    assert d1.files == d.files && !Exists(d1, p);
    var c := InitialConfig(dir);
    assert LoadOrCreate(d, dir) == (Ok((c, p)), d1.(files := d1.files[p := Text(Serialize(c))]));
  }

  /**
   * Later starts: when a file is at the settings path, start-up never writes, and it returns the
   * settings the file holds, or fails when the file cannot be read or is not a settings document.
   */
  lemma LoadOrCreateLoadsExisting(d: Disk, dir: Path)
    requires ConfigPath(dir) in d.files
    ensures var (r, d') := LoadOrCreate(d, dir);
      var p := ConfigPath(dir);
      d'.files == d.files &&
      (r.Ok? <==>
        (Exists(d, dir) || dir !in d.failing) && p !in d.failing && p !in d.dirs &&
        d.files[p].Text? && Parse(d.files[p].text).Some?) &&
      (r.Ok? ==> r.value == (Parse(d.files[p].text).value, p))
  {
    ConfigPathIsNotDir(dir);
  }

  /** A readable settings file that is not a settings document makes start-up fail, naming the file, and changes nothing. */
  lemma LoadOrCreateRejectsMalformed(d: Disk, dir: Path, t: string)
    requires Exists(d, dir)
    requires ConfigPath(dir) in d.files && d.files[ConfigPath(dir)] == Text(t)
    requires ConfigPath(dir) !in d.failing && ConfigPath(dir) !in d.dirs
    requires Parse(t) == None
    ensures LoadOrCreate(d, dir) == (Err(Malformed(ConfigPath(dir))), d)
  {
  }

  /** The start-up of a directory holding "this is not valid toml" as its settings file fails. */
  lemma LoadOrCreateRejectsPlainText(d: Disk, dir: Path)
    requires Exists(d, dir)
    requires ConfigPath(dir) in d.files && d.files[ConfigPath(dir)] == Text("this is not valid toml")
    requires ConfigPath(dir) !in d.failing && ConfigPath(dir) !in d.dirs
    ensures LoadOrCreate(d, dir).0 == Err(Malformed(ConfigPath(dir)))
  {
    ParseRejectsPlainText();
    LoadOrCreateRejectsMalformed(d, dir, "this is not valid toml");
  }

  /** Settings saved as a document are loaded back unchanged. */
  lemma LoadOrCreateReturnsSaved(d: Disk, dir: Path, c: Config)
    requires Exists(d, dir) || dir !in d.failing
    requires ConfigPath(dir) in d.files && d.files[ConfigPath(dir)] == Text(Serialize(c))
    requires ConfigPath(dir) !in d.failing && ConfigPath(dir) !in d.dirs
    ensures LoadOrCreate(d, dir).0 == Ok((c, ConfigPath(dir)))
  {
    ParseSerialize(c);
    LoadOrCreateLoadsExisting(d, dir);
  }

  /** Starting a second time finds what the first start left and returns the same settings, changing nothing. */
  lemma {:induction false} LoadOrCreateIsStable(d: Disk, dir: Path)
    requires LoadOrCreate(d, dir).0.Ok?
    ensures var d' := LoadOrCreate(d, dir).1;
      LoadOrCreate(d', dir) == (LoadOrCreate(d, dir).0, d')
  {
    var d' := LoadOrCreate(d, dir).1;
    LoadOrCreateAgreesWithDisk(d, dir);
    ConfigPathIsNotDir(dir);
  }
}
