/**
 * The commands the user interface calls: read the settings in force, replace and save them, and
 * export the diagnostics archive. Each returns text as its error, as the interface receives it.
 */
module Commands {
  import Text
  import opened Wrappers
  import opened FileSystem
  import opened Config
  import opened Toml
  import opened State
  import opened ConfigStore
  import opened Diagnostics

  // ---------------------------------------------------------------------------------------------
  // get_config / update_config
  // ---------------------------------------------------------------------------------------------

  /** `get_config`: the settings in force. */
  method GetConfig(state: AppState) returns (r: Result<Config, string>)
    ensures r == Ok(state.config)
  {
    r := Ok(state.config);
  }

  /** Saving settings c to the file at path, on a disk value: the outcome and the disk afterwards. */
  function SaveConfig(d: Disk, path: Path, c: Config): (Result<(), string>, Disk)
  {
    var w := Write(d, path, Text(Serialize(c)));
    if w.0.Err? then (Err("Failed to write config file: " + w.0.error.Message()), w.1)
    else (Ok(()), w.1)
  }

  /**
   * `update_config`: the new settings are put in force first and stay in force even when saving
   * them fails; then they are saved to the state's settings file.
   */
  method UpdateConfig(state: AppState, fs: FileSystem, config: Config) returns (r: Result<(), string>)
    modifies state, fs
    ensures state.config == config
    ensures (r, fs.State()) == SaveConfig(old(fs.State()), state.configPath, config)
  {
    state.config := config;
    var written := fs.WriteFile(state.configPath, Text(Serialize(state.config)));
    if written.Err? {
      return Err("Failed to write config file: " + written.error.Message());
    }
    r := Ok(());
  }

  /**
   * Saving succeeds exactly when the settings file can be written, and then changes only that
   * file; a failed save changes nothing and reports the operating system's message.
   */
  lemma SaveConfigOutcome(d: Disk, path: Path, c: Config)
    ensures var (r, d') := SaveConfig(d, path, c);
      (r.Ok? <==> path !in d.failing && path !in d.dirs) &&
      (r.Ok? ==> d'.files - {path} == d.files - {path} && d'.dirs == d.dirs) &&
      (r.Err? ==>
        d' == d &&
        r.error == "Failed to write config file: " +
          (if path in d.failing then d.failing[path] else "Is a directory (os error 21)"))
  {
  }

  /** Saved settings read back as the same settings. */
  lemma SaveConfigReadsBack(d: Disk, path: Path, c: Config)
    requires SaveConfig(d, path, c).0.Ok?
    ensures var d' := SaveConfig(d, path, c).1;
      ReadText(d', path).Ok? && Parse(ReadText(d', path).value) == Some(c)
  {
    var d' := SaveConfig(d, path, c).1;
    assert ReadText(d', path) == Ok(Serialize(c));
    ParseSerialize(c);
  }

  /** Settings saved by an update are the settings the next start-up loads. */
  lemma SavedConfigIsLoadedOnRestart(d: Disk, dir: Path, c: Config)
    requires Exists(d, dir) || dir !in d.failing
    requires SaveConfig(d, ConfigPath(dir), c).0.Ok?
    ensures LoadOrCreate(SaveConfig(d, ConfigPath(dir), c).1, dir).0 == Ok((c, ConfigPath(dir)))
  {
    var d' := SaveConfig(d, ConfigPath(dir), c).1;
    assert d'.failing == d.failing && d'.dirs == d.dirs;
    LoadOrCreateReturnsSaved(d', dir, c);
  }

  // ---------------------------------------------------------------------------------------------
  // export_diagnostic_info
  // ---------------------------------------------------------------------------------------------

  /**
   * How a character is written by Rust's `{:?}` of a path, which escapes every character with
   * `char::escape_debug`: both quote characters, the backslash and the common control characters.
   */
  function DebugEscapeChar(c: char): string
  {
    if c == '"' then "\\\""
    else if c == '\'' then "\\'"
    else if c == '\\' then "\\\\"
    else if c == '\n' then "\\n"
    else if c == '\t' then "\\t"
    else if c == '\r' then "\\r"
    else if c == '\0' then "\\0"
    else [c]
  }

  function DebugEscape(s: string): string
  {
    if s == [] then [] else DebugEscapeChar(s[0]) + DebugEscape(s[1..])
  }

  /** A path as `{:?}` prints it: quoted, with quotes, apostrophes, backslashes and control characters escaped. */
  function DebugPath(p: Path): string
  {
    "\"" + DebugEscape(p) + "\""
  }

  /** Characters that `DebugEscapeChar` leaves alone are printed as they are. */
  lemma {:induction false} DebugEscapeOfPlainText(s: string)
    requires forall c | c in s :: DebugEscapeChar(c) == [c]
    ensures DebugEscape(s) == s
  {
    if s != [] {
      assert s[0] in s;
      assert forall c | c in s[1..] :: c in s;
      DebugEscapeOfPlainText(s[1..]);
      assert [s[0]] + s[1..] == s;
    }
  }

  /**
   * An apostrophe between plain text is printed as `\'`, and the text around it as it is: the
   * directory `/tmp/o'brien` is printed as `"/tmp/o\'brien"`.
   */
  lemma DebugPathOfApostrophe(a: string, b: string)
    requires forall c | c in a :: DebugEscapeChar(c) == [c]
    requires forall c | c in b :: DebugEscapeChar(c) == [c]
    ensures DebugPath(a + "'" + b) == "\"" + a + "\\'" + b + "\""
  {
    DebugEscapeOfPlainText(a);
    DebugEscapeOfPlainText(b);
    DebugPathAroundApostrophe(a, b);
  }

  /** The escape of `a'b` is the escape of `a`, then `\'`, then the escape of `b`. */
  lemma DebugPathAroundApostrophe(a: string, b: string)
    ensures DebugPath(a + "'" + b) == "\"" + DebugEscape(a) + "\\'" + DebugEscape(b) + "\""
  {
    var q := "'";
    var x, e, y := DebugEscape(a), DebugEscape(q), DebugEscape(b);
    DebugEscapeConcat(a, q);
    DebugEscapeConcat(a + q, b);
    ApostropheEscaped();
    Text.ConcatAssociates("\"", x + e, y);
    Text.ConcatAssociates("\"", x, e);
  }

  /** `{:?}` writes an apostrophe as a backslash and the apostrophe. */
  lemma ApostropheEscaped()
    ensures DebugEscape("'") == "\\'"
  {
    assert DebugEscape("'") == DebugEscapeChar('\'') + DebugEscape([]);
  }

  /** Escaping works character by character: the escape of a concatenation concatenates the escapes. */
  lemma {:induction false} DebugEscapeConcat(s: string, t: string)
    ensures DebugEscape(s + t) == DebugEscape(s) + DebugEscape(t)
  {
    if s != [] {
      assert (s + t)[0] == s[0] && (s + t)[1..] == s[1..] + t;
      DebugEscapeConcat(s[1..], t);
      assert DebugEscape(s + t) == DebugEscapeChar(s[0]) + DebugEscape(s[1..] + t);
    } else {
      assert s + t == t;
    }
  }

  /** An escape is never confused with a plain character, and different characters escape differently. */
  lemma DebugEscapeCharDecodes(a: char, b: char, u: string, v: string)
    requires DebugEscapeChar(a) + u == DebugEscapeChar(b) + v
    ensures a == b && u == v
  {
    var ea, eb := DebugEscapeChar(a), DebugEscapeChar(b);
    assert (ea + u)[0] == ea[0] && (eb + v)[0] == eb[0];
    if |ea| == 2 && |eb| == 2 {
      assert (ea + u)[1] == ea[1] && (eb + v)[1] == eb[1];
      assert (ea + u)[2..] == u && (eb + v)[2..] == v;
    } else {
      assert (ea + u)[1..] == u && (eb + v)[1..] == v;
    }
  }

  /** Different paths are printed differently, so the message names the archive unambiguously. */
  lemma {:induction false} DebugEscapeInjective(s: string, t: string)
    requires DebugEscape(s) == DebugEscape(t)
    ensures s == t
  {
    if s != [] && t != [] {
      DebugEscapeCharDecodes(s[0], t[0], DebugEscape(s[1..]), DebugEscape(t[1..]));
      DebugEscapeInjective(s[1..], t[1..]);
      assert s == [s[0]] + s[1..] && t == [t[0]] + t[1..];
    }
  }

  /**
   * Exporting on a disk value: the message for the interface and the disk afterwards. The log
   * directory is the one the application framework resolves, or the framework's error text.
   */
  function ExportDiagnostics(d: Disk, configPath: Path, logDir: Result<Path, string>, outputDir: Path, today: CalendarDay)
    : (Result<string, string>, Disk)
  {
    match logDir
    case Err(e) => (Err(e), d)
    case Ok(dir) =>
      var z := DiagnosticZip(d, configPath, Join(dir, "renxin.log"), outputDir, today);
      match z.0
      case Ok(p) => (Ok("Successfully exported to " + DebugPath(p)), z.1)
      case Err(e) => (Err(e.Message()), z.1)
  }

  /** `export_diagnostic_info`: exports the state's settings file and the application log into outputDir. */
  method ExportDiagnosticInfo(state: AppState, fs: FileSystem, logDir: Result<Path, string>, outputDir: Path, today: CalendarDay)
    returns (r: Result<string, string>)
    modifies fs
    ensures (r, fs.State()) == ExportDiagnostics(old(fs.State()), state.configPath, logDir, outputDir, today)
  {
    if logDir.Err? {
      return Err(logDir.error);
    }
    var logPath := Join(logDir.value, "renxin.log");
    var configPath := state.configPath;
    var zipped := CreateDiagnosticZip(fs, configPath, logPath, outputDir, today);
    match zipped
    case Ok(path) => r := Ok("Successfully exported to " + DebugPath(path));
    case Err(e) => r := Err(e.Message());
  }

  /**
   * The export reports success exactly when the archive was written, naming the archive of the
   * day in outputDir; an unresolvable log directory is reported as it is, touching nothing.
   */
  lemma ExportDiagnosticsReport(d: Disk, configPath: Path, logDir: Result<Path, string>, outputDir: Path, today: CalendarDay)
    ensures var (r, d') := ExportDiagnostics(d, configPath, logDir, outputDir, today);
      (logDir.Err? ==> r == Err(logDir.error) && d' == d) &&
      (logDir.Ok? ==>
        var z := DiagnosticZip(d, configPath, Join(logDir.value, "renxin.log"), outputDir, today);
        d' == z.1 && (r.Ok? <==> z.0.Ok?)) &&
      (r.Ok? ==> r.value == "Successfully exported to " + DebugPath(ArchivePath(outputDir, today)))
  {
    if logDir.Ok? {
      var z := DiagnosticZip(d, configPath, Join(logDir.value, "renxin.log"), outputDir, today);
      assert z.0.Ok? ==> z.0.value == ArchivePath(outputDir, today);
    }
  }

  /** Two successful exports report the same message only when they wrote the same archive. */
  lemma ExportMessageNamesArchive(p: Path, q: Path)
    requires "Successfully exported to " + DebugPath(p) == "Successfully exported to " + DebugPath(q)
    ensures p == q
  {
    var k := |"Successfully exported to \""|;
    var m := "Successfully exported to " + DebugPath(p);
    assert m[k..|m| - 1] == DebugEscape(p);
    assert m[k..|m| - 1] == DebugEscape(q);
    DebugEscapeInjective(p, q);
  }
}
