/**
 * Exporting diagnostics (`create_diagnostic_zip`): a zip archive named after the current day,
 * written into a chosen directory, holding the settings file as `config.toml` and the log file
 * as `renxin.log`, each only if it exists. The local clock is a parameter.
 */
module Diagnostics {
  import opened Wrappers
  import opened Text
  import opened FileSystem

  // ---------------------------------------------------------------------------------------------
  // The archive's name
  // ---------------------------------------------------------------------------------------------

  function Pow10(w: nat): (p: nat)
    ensures p >= 1
  {
    if w == 0 then 1 else 10 * Pow10(w - 1)
  }

  /** n written with exactly w decimal digits, zero-padded on the left. */
  function Padded(n: nat, w: nat): (s: string)
    ensures |s| == w && AllDigits(s)
  {
    if w == 0 then [] else Padded(n / 10, w - 1) + [DigitChar(n % 10)]
  }

  /** The padded numeral denotes n, reduced to its last w digits. */
  lemma {:induction false} PaddedValue(n: nat, w: nat)
    ensures NumeralValue(Padded(n, w)) == n % Pow10(w)
  {
    if w > 0 {
      var s := Padded(n, w);
      assert s[..w - 1] == Padded(n / 10, w - 1);
      assert DigitValue(s[w - 1]) == n % 10;
      PaddedValue(n / 10, w - 1);
      LastDigitsStep(n, Pow10(w - 1));
    }
  }

  /** The last digits of n are those of n / 10 followed by n's last digit. */
  lemma LastDigitsStep(n: nat, p: nat)
    requires p >= 1
    ensures (n / 10 % p) * 10 + n % 10 == n % (10 * p)
  {
    var q, r := n / 10, n % 10;
    var a, b := q / p, q % p;
    assert q == p * a + b;
    assert n == 10 * q + r;
    assert n == (10 * p) * a + (10 * b + r);
    assert 0 <= 10 * b + r < 10 * p;
    ModOfLinear(n, 10 * p, a, 10 * b + r);
  }

  /** The remainder of m * a + b by m is b, when b is below m. */
  lemma ModOfLinear(n: int, m: int, a: int, b: int)
    requires m > 0 && 0 <= b < m && n == m * a + b
    ensures n % m == b
  {
    var a', b' := n / m, n % m;
    assert m * a' + b' == m * a + b;
    if a' < a {
      MultipleAtLeast(m, a - a');
    } else if a' > a {
      MultipleAtLeast(m, a' - a);
    }
  }

  /** A positive multiple of m is at least m. */
  lemma {:induction false} MultipleAtLeast(m: int, k: int)
    requires m > 0 && k >= 1
    ensures m * k >= m
    decreases k
  {
    if k > 1 {
      MultipleAtLeast(m, k - 1);
      assert m * k == m * (k - 1) + m;
    }
  }

  /** Numbers that fit in w digits have different padded numerals. */
  lemma PaddedInjective(n: nat, m: nat, w: nat)
    requires n < Pow10(w) && m < Pow10(w)
    requires Padded(n, w) == Padded(m, w)
    ensures n == m
  {
    PaddedValue(n, w);
    PaddedValue(m, w);
  }

  datatype Date = Date(year: nat, month: nat, day: nat)

  /** A day as the local clock reports it; years have at most four digits. */
  type CalendarDay = d: Date | d.year < 10000 && 1 <= d.month <= 12 && 1 <= d.day <= 31
    witness Date(1970, 1, 1)

  /** The day formatted as `%Y%m%d`. */
  function Stamp(d: CalendarDay): (s: string)
    ensures |s| == 8 && AllDigits(s)
  {
    Padded(d.year, 4) + Padded(d.month, 2) + Padded(d.day, 2)
  }

  /** The stamp is the padded year, month and day, side by side. */
  lemma StampFields(d: CalendarDay)
    ensures Stamp(d)[..4] == Padded(d.year, 4)
    ensures Stamp(d)[4..6] == Padded(d.month, 2)
    ensures Stamp(d)[6..] == Padded(d.day, 2)
  {
    ConcatSplit(Padded(d.year, 4) + Padded(d.month, 2), Padded(d.day, 2));
    ConcatSplit(Padded(d.year, 4), Padded(d.month, 2));
  }

  /** A number that fits in w digits is what its padded numeral denotes. */
  lemma PaddedValueOfSmall(n: nat, w: nat)
    requires n < Pow10(w)
    ensures NumeralValue(Padded(n, w)) == n
  {
    PaddedValue(n, w);
  }

  lemma Pow10OfWidths()
    ensures Pow10(2) == 100 && Pow10(4) == 10000
  {
  }

  /** The stamp spells the year in four digits, then the month and the day in two digits each. */
  lemma StampSpellsDate(d: CalendarDay)
    ensures NumeralValue(Stamp(d)[..4]) == d.year
    ensures NumeralValue(Stamp(d)[4..6]) == d.month
    ensures NumeralValue(Stamp(d)[6..]) == d.day
  {
    StampFields(d);
    Pow10OfWidths();
    PaddedValueOfSmall(d.year, 4);
    PaddedValueOfSmall(d.month, 2);
    PaddedValueOfSmall(d.day, 2);
  }

  /** The stamp of 17 October 2026. */
  lemma StampOfDay()
    ensures Stamp(Date(2026, 10, 17)) == "20261017"
  {
  }

  /** Different days have different stamps. */
  lemma StampInjective(a: CalendarDay, b: CalendarDay)
    requires Stamp(a) == Stamp(b)
    ensures a == b
  {
    StampSpellsDate(a);
    StampSpellsDate(b);
  }

  function ArchiveName(d: CalendarDay): string
  {
    "darts_diag_" + Stamp(d) + ".zip"
  }

  /** Where the archive of day d is written in outputDir. */
  function ArchivePath(outputDir: Path, d: CalendarDay): Path
  {
    Join(outputDir, ArchiveName(d))
  }

  /** Exports of different days into one directory never write the same file. */
  lemma ArchivePathsOfDifferentDaysDiffer(outputDir: Path, a: CalendarDay, b: CalendarDay)
    requires a != b
    ensures ArchivePath(outputDir, a) != ArchivePath(outputDir, b)
  {
    if ArchivePath(outputDir, a) == ArchivePath(outputDir, b) {
      JoinInjective(outputDir, ArchiveName(a), ArchiveName(b));
      assert ArchiveName(a)[11..19] == Stamp(a);
      assert ArchiveName(b)[11..19] == Stamp(b);
      StampInjective(a, b);
    }
  }

  // ---------------------------------------------------------------------------------------------
  // The export
  // ---------------------------------------------------------------------------------------------

  /**
   * Adds the file at src under name when src exists: the entry is started, then the file is
   * copied into it; when the file cannot be opened or read the entry stays empty and the error
   * ends the export.
   */
  function AddFile(d: Disk, entries: seq<Entry>, name: string, src: Path): (Result<(), IoError>, seq<Entry>)
  {
    if !Exists(d, src) then (Ok(()), entries)
    else
      match Read(d, src)
      case Err(e) => (Err(e), entries + [Entry(name, Text(""))])
      case Ok(b) => (Ok(()), entries + [Entry(name, b)])
  }

  /**
   * The export on a disk value: the archive's path or the error, and the disk afterwards. The
   * archive file is created (emptied) first; when a later step fails, the writer is dropped,
   * which still finishes the archive with the entries written so far.
   */
  function DiagnosticZip(d: Disk, configPath: Path, logPath: Path, outputDir: Path, today: CalendarDay)
    : (Result<Path, IoError>, Disk)
  {
    var zip := ArchivePath(outputDir, today);
    var created := Write(d, zip, Text(""));
    if created.0.Err? then (Err(created.0.error), d)
    else
      var d1 := created.1;
      var config := AddFile(d1, [], "config.toml", configPath);
      if config.0.Err? then (Err(config.0.error), d1.(files := d1.files[zip := Archive(config.1)]))
      else
        var log := AddFile(d1, config.1, "renxin.log", logPath);
        var d2 := d1.(files := d1.files[zip := Archive(log.1)]);
        if log.0.Err? then (Err(log.0.error), d2) else (Ok(zip), d2)
  }

  /** `create_diagnostic_zip`. */
  method CreateDiagnosticZip(fs: FileSystem, configPath: Path, logPath: Path, outputDir: Path, today: CalendarDay)
    returns (r: Result<Path, IoError>)
    modifies fs
    ensures (r, fs.State()) == DiagnosticZip(old(fs.State()), configPath, logPath, outputDir, today)
  {
    var zipPath := Join(outputDir, "darts_diag_" + Stamp(today) + ".zip");
    var created := fs.WriteFile(zipPath, Text(""));
    if created.Err? {
      return Err(created.error);
    }
    var entries: seq<Entry> := [];

    var configExists := fs.PathExists(configPath);
    if configExists {
      var data := fs.ReadFile(configPath);
      if data.Err? {
        fs.Overwrite(zipPath, Archive(entries + [Entry("config.toml", Text(""))]));
        return Err(data.error);
      }
      entries := entries + [Entry("config.toml", data.value)];
    }

    var logExists := fs.PathExists(logPath);
    if logExists {
      var data := fs.ReadFile(logPath);
      if data.Err? {
        fs.Overwrite(zipPath, Archive(entries + [Entry("renxin.log", Text(""))]));
        return Err(data.error);
      }
      entries := entries + [Entry("renxin.log", data.value)];
    }

    fs.Overwrite(zipPath, Archive(entries));
    r := Ok(zipPath);
  }

  // ---------------------------------------------------------------------------------------------
  // What the export promises
  // ---------------------------------------------------------------------------------------------

  /** A source the export can copy: it is absent, or a readable regular file. */
  predicate Copyable(d: Disk, src: Path) {
    !Exists(d, src) || (src in d.files && src !in d.dirs && src !in d.failing)
  }

  /** The entry for src under name: present exactly when src exists, holding its contents. */
  function Included(d: Disk, name: string, src: Path): seq<Entry>
  {
    if src in d.files then [Entry(name, d.files[src])] else []
  }

  /** Adding a source succeeds exactly when it is copyable; the entry is its contents, or empty on failure. */
  lemma AddFileOutcome(d: Disk, entries: seq<Entry>, name: string, src: Path)
    ensures AddFile(d, entries, name, src).0.Ok? <==> Copyable(d, src)
    ensures AddFile(d, entries, name, src).1 ==
      if Copyable(d, src) then entries + Included(d, name, src) else entries + [Entry(name, Text(""))]
  {
    if !Exists(d, src) {
      assert entries + [] == entries;
    }
  }

  /** Creating the archive does not change what a source other than the archive reads as. */
  lemma AddFileIgnoresArchive(d: Disk, zip: Path, entries: seq<Entry>, name: string, src: Path)
    requires zip != src && zip !in d.failing && zip !in d.dirs
    ensures AddFile(Write(d, zip, Text("")).1, entries, name, src) == AddFile(d, entries, name, src)
  {
    var d1 := Write(d, zip, Text("")).1;
    assert Exists(d1, src) == Exists(d, src);
    assert Read(d1, src) == Read(d, src);
  }

  /** Finishing the archive replaces the emptied file that creating it left. */
  lemma RecreatedArchive(d: Disk, zip: Path, b: Blob)
    requires zip !in d.failing && zip !in d.dirs
    ensures Write(d, zip, Text("")).1.files[zip := b] == d.files[zip := b]
  {
  }

  /**
   * When neither source is the archive itself, the export succeeds exactly when the archive can be
   * created and each existing source can be read; it then returns the archive's path, and the
   * archive holds `config.toml` and then `renxin.log`, each exactly when its source exists and
   * with that source's contents. Directories are never changed.
   */
  lemma DiagnosticZipContents(d: Disk, configPath: Path, logPath: Path, outputDir: Path, today: CalendarDay)
    requires ArchivePath(outputDir, today) != configPath && ArchivePath(outputDir, today) != logPath
    ensures var (r, d') := DiagnosticZip(d, configPath, logPath, outputDir, today);
      var zip := ArchivePath(outputDir, today);
      (r.Ok? <==>
        zip !in d.failing && zip !in d.dirs && Copyable(d, configPath) && Copyable(d, logPath)) &&
      (r.Ok? ==>
        (r.value == zip &&
         d'.files == d.files[zip := Archive(Included(d, "config.toml", configPath) + Included(d, "renxin.log", logPath))])) &&
      d'.dirs == d.dirs
  {
    var zip := ArchivePath(outputDir, today);
    if zip !in d.failing && zip !in d.dirs {
      AddFileIgnoresArchive(d, zip, [], "config.toml", configPath);
      AddFileOutcome(d, [], "config.toml", configPath);
      var config := AddFile(d, [], "config.toml", configPath);
      AddFileIgnoresArchive(d, zip, config.1, "renxin.log", logPath);
      AddFileOutcome(d, config.1, "renxin.log", logPath);
      assert [] + Included(d, "config.toml", configPath) == Included(d, "config.toml", configPath);
    }
  }

  /**
   * A failed export leaves the archive as far as it got: nothing when it cannot be created;
   * an empty `config.toml` entry when the settings file cannot be read; the settings entry and an
   * empty `renxin.log` entry when the log cannot be read.
   */
  lemma DiagnosticZipOnFailure(d: Disk, configPath: Path, logPath: Path, outputDir: Path, today: CalendarDay)
    requires ArchivePath(outputDir, today) != configPath && ArchivePath(outputDir, today) != logPath
    requires DiagnosticZip(d, configPath, logPath, outputDir, today).0.Err?
    ensures var d' := DiagnosticZip(d, configPath, logPath, outputDir, today).1;
      var zip := ArchivePath(outputDir, today);
      if zip in d.failing || zip in d.dirs then d' == d
      else if !Copyable(d, configPath) then
        d'.files == d.files[zip := Archive([Entry("config.toml", Text(""))])]
      else
        !Copyable(d, logPath) &&
        d'.files == d.files[zip := Archive(Included(d, "config.toml", configPath) + [Entry("renxin.log", Text(""))])]
  {
    var zip := ArchivePath(outputDir, today);
    if zip !in d.failing && zip !in d.dirs {
      AddFileIgnoresArchive(d, zip, [], "config.toml", configPath);
      AddFileOutcome(d, [], "config.toml", configPath);
      var config := AddFile(d, [], "config.toml", configPath);
      if !Copyable(d, configPath) {
        assert config.1 == [Entry("config.toml", Text(""))];
        RecreatedArchive(d, zip, Archive(config.1));
      } else {
        assert config.1 == Included(d, "config.toml", configPath);
        AddFileIgnoresArchive(d, zip, config.1, "renxin.log", logPath);
        AddFileOutcome(d, config.1, "renxin.log", logPath);
        var log := AddFile(d, config.1, "renxin.log", logPath);
        RecreatedArchive(d, zip, Archive(log.1));
      }
    }
  }


  /** Whatever happens, no file other than the archive and no directory changes. */
  lemma DiagnosticZipTouchesOnlyArchive(d: Disk, configPath: Path, logPath: Path, outputDir: Path, today: CalendarDay)
    ensures var d' := DiagnosticZip(d, configPath, logPath, outputDir, today).1;
      d'.files - {ArchivePath(outputDir, today)} == d.files - {ArchivePath(outputDir, today)} &&
      d'.dirs == d.dirs && d'.failing == d.failing
  {
  }

  /**
   * Exporting again on the same day gives the same result and leaves the same files: the second
   * export empties the archive it finds and then reads the same sources as the first.
   */
  lemma {:induction false} DiagnosticZipIsIdempotent(d: Disk, configPath: Path, logPath: Path, outputDir: Path, today: CalendarDay)
    ensures var (r, d') := DiagnosticZip(d, configPath, logPath, outputDir, today);
      DiagnosticZip(d', configPath, logPath, outputDir, today) == (r, d')
  {
    var zip := ArchivePath(outputDir, today);
    var d' := DiagnosticZip(d, configPath, logPath, outputDir, today).1;
    if zip !in d.failing && zip !in d.dirs {
      var d1 := Write(d, zip, Text("")).1;
      assert d'.dirs == d.dirs && d'.failing == d.failing;
      assert d'.files[zip := Text("")] == d1.files;
      assert Write(d', zip, Text("")) == (Ok(()), d1);
    }
  }

  /**
   * A directory holding a settings file with "test_config = true" and a log with "test log entry":
   * the export into that directory succeeds and the archive holds both, in that order.
   */
  lemma DiagnosticZipOfTestDirectory(dir: Path, today: CalendarDay)
    ensures var configPath := Join(dir, "config.toml");
      var logPath := Join(dir, "renxin.log");
      var d := Disk(map[configPath := Text("test_config = true"), logPath := Text("test log entry")], {dir}, map[]);
      DiagnosticZip(d, configPath, logPath, dir, today) ==
        (Ok(ArchivePath(dir, today)),
         d.(files := d.files[ArchivePath(dir, today) := Archive([
           Entry("config.toml", Text("test_config = true")),
           Entry("renxin.log", Text("test log entry"))])]))
  {
    var configPath := Join(dir, "config.toml");
    var logPath := Join(dir, "renxin.log");
    var zip := ArchivePath(dir, today);
    assert |ArchiveName(today)| == 23;
    if zip == configPath { JoinInjective(dir, ArchiveName(today), "config.toml"); }
    if zip == logPath { JoinInjective(dir, ArchiveName(today), "renxin.log"); }
    if configPath == logPath { JoinInjective(dir, "config.toml", "renxin.log"); }
    assert zip != dir && configPath != dir && logPath != dir;
    var d := Disk(map[configPath := Text("test_config = true"), logPath := Text("test log entry")], {dir}, map[]);
    DiagnosticZipContents(d, configPath, logPath, dir, today);
    DiagnosticZipTouchesOnlyArchive(d, configPath, logPath, dir, today);
    assert Included(d, "config.toml", configPath) == [Entry("config.toml", Text("test_config = true"))];
    assert Included(d, "renxin.log", logPath) == [Entry("renxin.log", Text("test log entry"))];
    assert Copyable(d, configPath) && Copyable(d, logPath);
    var (r, d') := DiagnosticZip(d, configPath, logPath, dir, today);
    assert r == Ok(zip);
    assert Included(d, "config.toml", configPath) + Included(d, "renxin.log", logPath) ==
      [Entry("config.toml", Text("test_config = true")), Entry("renxin.log", Text("test log entry"))];
    assert d'.files == d.files[zip := Archive([
           Entry("config.toml", Text("test_config = true")),
           Entry("renxin.log", Text("test log entry"))])];
    assert d'.dirs == d.dirs && d'.failing == d.failing;
  }
}
