# Configuration and diagnostics layer of the renxin dart-session recorder

This project models, in Dafny, the configuration and diagnostics layer of the desktop application's
Rust back end (`renxin-app/src-tauri/src`). It covers four parts:

- **Log masking** (`mask_sensitive_info`). Two regex rewrite passes run over a log line. The
  home-path pass comes first. The dotted-quad pass then runs on its output.
- **Diagnostic bundle** (`create_diagnostic_zip`). It creates `darts_diag_YYYYMMDD.zip` in an output
  directory. The archive holds `config.toml` and then `renxin.log`, each added only when its source
  file exists.
- **Start-up** (`Config`, its `Default`, `load_or_create_config`). The data directory is created if
  it is missing. The settings file `config.toml` in it is then read. On first start, a default
  settings file is written instead, with the database and video paths placed inside that directory.
- **Shared state and commands** (`AppState`, `get_config`, `update_config`,
  `export_diagnostic_info`).

Files and modules:

| file | module | what it holds |
|---|---|---|
| `wrappers.dfy` | `Wrappers` | `Option` and `Result` |
| `text.dfy` | `Text` | digits and the value of a numeral, substring occurrence, two sequence facts |
| `masking.dfy` | `Masking` | `regex::escape`, both match functions, both `replace_all` scanners, the filter, its properties |
| `masking_examples.dfy` | `MaskingExamples` | the exact outputs for concrete lines: the unit test's line, out-of-range and glued quads, a Unix and a Windows home |
| `filesystem.dfy` | `FileSystem` | paths and `Path::join`; file contents; OS errors and their messages; a disk as a value with the functions `Write`, `Read`, `ReadText` and `MakeDirs`; the `FileSystem` class whose methods are proved against them |
| `config.dfy` | `Config` | the settings records with `u32`/`u16` fields, and `Default` |
| `toml.dfy` | `Toml` | the settings document: `Serialize` (kebab-case keys, one table per record) and `Parse`, with the round trip proved |
| `state.dfy` | `State` | class `AppState` with a mutable `config` and a constant `configPath` |
| `config_store.dfy` | `ConfigStore` | `LoadOrCreate` on a disk value, the method `LoadOrCreateConfig` proved against it, and the start-up properties |
| `diagnostics.dfy` | `Diagnostics` | the date stamp and archive name; `DiagnosticZip` on a disk value, the method `CreateDiagnosticZip` proved against it, and the bundle properties |
| `commands.dfy` | `Commands` | `GetConfig`, `UpdateConfig` and `ExportDiagnosticInfo`, Rust's `{:?}` rendering of a path, and the command properties |

Each state-changing operation is a method. A file-system call goes through a `FileSystem` object,
which is an explicit parameter. Each method's `ensures` ties its result and the new disk to a pure
function of the old disk. The properties are then proved as lemmas about those functions.

The home directory (`dirs::home_dir`), today's date (`chrono::Local::now`) and the log directory
(`app_log_dir`) are inputs.

A disk records the paths where the environment makes an operation fail, each with the OS message.
This covers permissions, a full disk and a missing parent directory.

The masking passes follow the regex crate's leftmost-first, non-overlapping, greedy `replace_all`.
Each pass is a match-length function plus a scanner. The scanner copies characters until a match
starts, emits the replacement, then resumes after the match.

The home-path pass replaces only the home text, one separator and the one path segment after
it. The replacement is the regex-escaped home text followed by the literal text `[/\\][MASKED]`,
with two backslashes. A match ends at the next separator, and the home pass then goes on over the
rest of the line, so a later home path is masked too (`MaskHomePathsRewritesSegment`). The rest of
the path is kept when it holds no further home path (`UnixHomePathIsMasked`,
`WindowsHomePathIsMasked`).

The IP pattern has `\b` on both sides, so `a1.2.3.4` and `1234.5.6.7` are left alone
(`LetterGluedQuadIsKept`, `LongFirstRunIsKept`).

The settings document is a concrete codec, `Toml.Serialize` and `Toml.Parse`. Its round trip
`Parse(Serialize(c)) == Some(c)` is proved (`ParseSerialize`).

## Model

| member | source | states |
|---|---|---|
| Masking.MaskSensitiveInfo | renxin-app/src-tauri/src/logging.rs:7-26 | `mask_sensitive_info`: the home pass when the home is known, then the IP pass on its output; its behaviour is stated by `MaskSensitiveInfoKeepsCleanLine`, `MaskSensitiveInfoWithoutHome` and `MaskSensitiveInfoMarksHomePath` |
| Masking.MaskHomePaths | renxin-app/src-tauri/src/logging.rs:17-19 | `path_re.replace_all`; its behaviour is stated by `MaskHomePathsCopies`, `MaskHomePathsReplaces`, `MaskHomePathsWithoutMatch` and `MaskHomePathsRewritesSegment` |
| Masking.MaskIpAddresses | renxin-app/src-tauri/src/logging.rs:24-25 | `ip_re.replace_all(…, "[MASKED_IP]")`; its behaviour is stated by `MaskIpAddressesWithoutMatch`, `MaskIpAddressesOfQuadAt` and `MaskIpAddressesRewritesQuad` |
| Masking.EscapeRegex | renxin-app/src-tauri/src/logging.rs:17 | `regex::escape`; its behaviour is stated by `UnescapeEscapeRegex`, `EscapeRegexIdentity`, `EscapeRegexLength` and `EscapeRegexConcat` |
| Masking.HomeMatchLen | renxin-app/src-tauri/src/logging.rs:18 | the length of a `path_re` match at a position, 0 for none; its behaviour is stated by `HomeMatchIsHomeSegment` and `HomeMatchOfParts` |
| Masking.HomeReplacement | renxin-app/src-tauri/src/logging.rs:19 | the replacement text of the home pass; its behaviour is stated by `HomeReplacementCarriesMarker` |
| Masking.IpMatchLen | renxin-app/src-tauri/src/logging.rs:24 | the length of an `ip_re` match at a position, 0 for none; its behaviour is stated by `IpMatchIsDottedQuad`, `IpMatchSpellsDottedQuad` and `DottedQuadIsIpMatch` |
| Masking.UnescapeEscapeRegex | renxin-app/src-tauri/src/logging.rs:17 | escaping the home text loses nothing: reading each `\x` of the escaped text as `x` gives the home text back |
| Masking.EscapeRegexLength | renxin-app/src-tauri/src/logging.rs:17 | escaping never shortens the text, and keeps its length exactly when it has no metacharacter |
| Masking.EscapeRegexIdentity | renxin-app/src-tauri/src/logging.rs:17 | the escaped home is the home itself if and only if the home has no regex metacharacter |
| Masking.EscapeRegexConcat | renxin-app/src-tauri/src/logging.rs:17 | escaping works character by character: escaping a concatenation concatenates the escapes |
| Masking.EscapeRegexPlain | renxin-app/src-tauri/src/logging.rs:17 | text without metacharacters is its own escape |
| Masking.SegmentLenIsMaximalRun | renxin-app/src-tauri/src/logging.rs:18 | the greedy `[^/\\]+` run is maximal: no separator inside it, a separator or the end right after it |
| Masking.HomeMatchIsHomeSegment | renxin-app/src-tauri/src/logging.rs:18 | a home match of length n, both directions: the home text, one `/` or `\`, then a maximal non-empty run of non-separators |
| Masking.MaskHomePathsCopies | renxin-app/src-tauri/src/logging.rs:19 | where no match starts, `replace_all` copies the character and goes on |
| Masking.MaskHomePathsReplaces | renxin-app/src-tauri/src/logging.rs:19 | where a match starts, it becomes the escaped home plus `[/\\][MASKED]`, and scanning resumes after the match |
| Masking.MaskHomePathsSkipsUnmatched | renxin-app/src-tauri/src/logging.rs:19 | a stretch where no match starts is copied unchanged |
| Masking.MaskHomePathsWithoutMatch | renxin-app/src-tauri/src/logging.rs:18-19 | a line in which no match starts comes out of the home pass unchanged |
| Masking.MaskHomePathsAfterPrefix | renxin-app/src-tauri/src/logging.rs:19 | an unmatched prefix is kept, and the rest is masked as if on its own |
| Masking.HomeMatchOfParts | renxin-app/src-tauri/src/logging.rs:18 | home, a separator, a separator-free segment and then a separator or the end make a match exactly that long |
| Masking.MaskHomePathsRewritesSegment | renxin-app/src-tauri/src/logging.rs:17-19 | after an unmatched prefix: home + separator + segment becomes escaped home + `[/\\][MASKED]`; the prefix is kept, and the match ends at the next separator, after which the home pass goes on over the rest of the line |
| Masking.MaskHomePathsRewritesLeadingSegment | renxin-app/src-tauri/src/logging.rs:17-19 | the same for a home path at the start of the line: the replacement, then the home pass over the rest |
| Masking.MaskHomePathsMarksMatch | renxin-app/src-tauri/src/logging.rs:19 | when a match starts anywhere in the line, the output contains the replacement text |
| Masking.NoSeparatorNoHomeMatch | renxin-app/src-tauri/src/logging.rs:18 | a line without `/` or `\` has no home-path match |
| Masking.ShortTextKeepsHomePass | renxin-app/src-tauri/src/logging.rs:18-19 | text no longer than the home text is kept by the home pass |
| Masking.DigitRunIsMaximalRun | renxin-app/src-tauri/src/logging.rs:24 | the greedy `\d` run is maximal: digits up to its end, then a non-digit or the end |
| Masking.DottedOctetEndIsOctetAndDot | renxin-app/src-tauri/src/logging.rs:24 | one `\d{1,3}\.` step ends at p exactly when 1 to 3 digits are followed by a dot at p-1 |
| Masking.LastOctetIsOctetSpan | renxin-app/src-tauri/src/logging.rs:24 | before a word boundary, the greedy last octet is exactly a 1-to-3-digit span |
| Masking.IpMatchIsDottedQuad | renxin-app/src-tauri/src/logging.rs:24 | both directions: a match of length n at i is a dotted quad with `\b` before and after it, and nothing else |
| Masking.IpMatchSpellsDottedQuad | renxin-app/src-tauri/src/logging.rs:24 | a match spells four dot-separated runs of 1 to 3 digits between word boundaries |
| Masking.DottedQuadIsIpMatch | renxin-app/src-tauri/src/logging.rs:24 | every word-bounded dotted quad is matched, with no range check on the octets |
| Masking.IpMatchIsDigitsAndDots | renxin-app/src-tauri/src/logging.rs:24 | a match consists of digits and dots only |
| Masking.MatchEndsBeforeText | renxin-app/src-tauri/src/logging.rs:24 | a quad match ends before any text that starts with neither a digit nor a dot |
| Masking.OctetsMakeDottedQuad | renxin-app/src-tauri/src/logging.rs:24 | four runs of 1 to 3 digits joined by dots form a dotted quad |
| Masking.MaskIpsCopies | renxin-app/src-tauri/src/logging.rs:25 | where no quad starts, the character is copied |
| Masking.MaskIpsReplaces | renxin-app/src-tauri/src/logging.rs:25 | where a quad starts, it becomes `[MASKED_IP]`, and scanning resumes after it |
| Masking.MaskIpsSkipsUnmatched | renxin-app/src-tauri/src/logging.rs:25 | a stretch where no quad starts is copied unchanged |
| Masking.MaskIpsSkipsDigitFree | renxin-app/src-tauri/src/logging.rs:25 | a stretch without digits is copied unchanged |
| Masking.MaskIpAddressesWithoutMatch | renxin-app/src-tauri/src/logging.rs:24-25 | a line in which no quad starts is returned unchanged |
| Masking.MaskIpsKeepsDigitFreePrefix | renxin-app/src-tauri/src/logging.rs:25 | digit-free text at the scan position reappears at the start of the output |
| Masking.MaskIpsKeepsDigitFreeText | renxin-app/src-tauri/src/logging.rs:25 | text without digits or dots survives the IP pass wherever it sits |
| Masking.MaskIpsMarksMatch | renxin-app/src-tauri/src/logging.rs:25 | when a quad starts anywhere, the output contains `[MASKED_IP]` |
| Masking.MaskIpAddressesRewritesQuad | renxin-app/src-tauri/src/logging.rs:24-25 | the first word-bounded quad after digit-free text is replaced, and the text before it is kept |
| Masking.MaskIpsRewritesFirstMatch | renxin-app/src-tauri/src/logging.rs:25 | the first match after digit-free text is replaced, and the text before it is kept |
| Masking.MaskIpsCopiesDigitFreeTail | renxin-app/src-tauri/src/logging.rs:25 | a digit-free tail is copied as it is |
| Masking.MaskIpAddressesOfQuadAt | renxin-app/src-tauri/src/logging.rs:24-25 | a single word-bounded quad inside digit-free text: the output is the text with only the quad replaced by `[MASKED_IP]` |
| Masking.MaskIpAddressesOfQuadInText | renxin-app/src-tauri/src/logging.rs:24-25 | the same, for a line given as text + quad + text |
| Masking.DigitFreeKeepsIpPass | renxin-app/src-tauri/src/logging.rs:24-25 | a line without digits comes out of the IP pass unchanged |
| Masking.MaskSensitiveInfoKeepsCleanLine | renxin-app/src-tauri/src/logging.rs:11-25 | a line with neither a home path nor a quad is returned unchanged, whether or not the home is known |
| Masking.MaskSensitiveInfoWithoutHome | renxin-app/src-tauri/src/logging.rs:14-15 | with the home unknown, only the IP pass runs: paths in a digit-free line are not masked |
| Masking.HomeReplacementCarriesMarker | renxin-app/src-tauri/src/logging.rs:19 | the replacement has `[MASKED]` right after the escaped home and `[/\\]` |
| Masking.MaskSensitiveInfoMarksHomePath | renxin-app/src-tauri/src/logging.rs:11-25 | when a home path occurs in the line, the output of both passes contains `[MASKED]` |
| Masking.MaskedHomePathCarriesMarker | renxin-app/src-tauri/src/lib.rs:143-150 | for any home, masking "Error accessing <home>/some/file.txt" yields a line that contains `[MASKED]` |
| MaskingExamples.ConnectedLineIsMasked | renxin-app/src-tauri/src/lib.rs:151-153 | "Connected to 192.168.1.100 successfully" masks to exactly "Connected to [MASKED_IP] successfully", for any home |
| MaskingExamples.ConnectedLineIpPass | renxin-app/src-tauri/src/logging.rs:24-25 | the IP pass alone turns that line into "Connected to [MASKED_IP] successfully" |
| MaskingExamples.OutOfRangeQuadIsMasked | renxin-app/src-tauri/src/logging.rs:24 | "999.999.999.999" becomes "[MASKED_IP]": no range check |
| MaskingExamples.LetterGluedQuadIsKept | renxin-app/src-tauri/src/logging.rs:24 | "a1.2.3.4" is kept: no word boundary before the quad |
| MaskingExamples.LongFirstRunIsKept | renxin-app/src-tauri/src/logging.rs:24 | "1234.5.6.7" is kept: a four-digit run is no octet, and the quad inside it has no boundary |
| MaskingExamples.UnixHomePass | renxin-app/src-tauri/src/logging.rs:18-19 | with home /home/alice, the home pass turns "Error accessing /home/alice/some/file.txt" into "Error accessing /home/alice[/\\][MASKED]/file.txt" |
| MaskingExamples.UnixHomePathIsMasked | renxin-app/src-tauri/src/logging.rs:11-25 | the whole filter gives that same line: the later segment `/file.txt` is kept |
| MaskingExamples.WindowsHomeEscaped | renxin-app/src-tauri/src/logging.rs:17 | `regex::escape` of `C:\Users\bob` doubles its backslashes |
| MaskingExamples.WindowsHomePass | renxin-app/src-tauri/src/logging.rs:17-19 | with a Windows home, the replacement carries the escaped home (doubled backslashes), not the home as written |
| MaskingExamples.WindowsHomePathIsMasked | renxin-app/src-tauri/src/logging.rs:11-25 | the whole filter on a Windows line: escaped home + `[/\\][MASKED]`, then `\notes.txt` kept |
| FileSystem.JoinEndsWithName | renxin-app/src-tauri/src/config.rs:77 | a joined path ends with the joined name |
| FileSystem.JoinInjective | renxin-app/src-tauri/src/logging.rs:37 | joining different names to one directory gives different paths |
| FileSystem.WriteOutcome | renxin-app/src-tauri/src/config.rs:86 | a write succeeds exactly at a path that neither fails nor is a directory; then the file reads back as written and no other path changes; a failed write changes nothing |
| FileSystem.ReadOutcome | renxin-app/src-tauri/src/logging.rs:49-50 | a read succeeds exactly on a regular file that does not fail, and returns its contents |
| FileSystem.MakeDirsOutcome | renxin-app/src-tauri/src/config.rs:75 | creating the directory succeeds exactly when no file is in the way and the path does not fail; then the path exists and no file changes |
| FileSystem.FileSystem.PathExists | renxin-app/src-tauri/src/config.rs:74 | `exists()`: a file or a directory is at the path |
| FileSystem.FileSystem.WriteFile | renxin-app/src-tauri/src/config.rs:86 | `fs::write`: the outcome and the new disk are those of `Write` on the old disk |
| FileSystem.FileSystem.ReadToString | renxin-app/src-tauri/src/config.rs:90 | `fs::read_to_string`: the contents as text, or the OS error |
| FileSystem.FileSystem.ReadFile | renxin-app/src-tauri/src/logging.rs:49-50 | opening and copying a file yields its contents, or the OS error |
| FileSystem.FileSystem.CreateDirAll | renxin-app/src-tauri/src/config.rs:75 | `fs::create_dir_all`: the outcome and the new disk are those of `MakeDirs` |
| FileSystem.FileSystem.Overwrite | renxin-app/src-tauri/src/logging.rs:60 | writing through the open archive handle replaces that file's contents and nothing else |
| Config.Default | renxin-app/src-tauri/src/config.rs:53-70 | the default settings; their values are stated by `ConfigStore.LoadOrCreateCreatesDefault` |
| ConfigStore.ConfigPath | renxin-app/src-tauri/src/config.rs:77 | `app_data_dir.join("config.toml")`; its behaviour is stated by `ConfigPathIsNotDir` and `LoadOrCreateAgreesWithDisk` |
| ConfigStore.InitialConfig | renxin-app/src-tauri/src/config.rs:81-83 | the defaults with the database and video paths inside the directory; its behaviour is stated by `LoadOrCreateCreatesDefault` |
| Toml.UnescapeEscapeChar | renxin-app/src-tauri/src/config.rs:22-51 | each escaped character of a string value decodes back to itself, and an unescaped character is never a quote, a backslash or a line break |
| Toml.UnquoteEscape | renxin-app/src-tauri/src/config.rs:22-51 | a quoted, escaped string value reads back as the same string, leaving the text after the closing quote |
| Toml.Decimal | renxin-app/src-tauri/src/config.rs:22-51 | an integer is written as a non-empty run of digits |
| Toml.NumeralValueOfDecimal | renxin-app/src-tauri/src/config.rs:22-51 | the written digits have the value of the number |
| Toml.LeadingDigitsOfNumeral | renxin-app/src-tauri/src/config.rs:22-51 | reading digits stops exactly at the end of the numeral |
| Toml.ParseNatDecimal | renxin-app/src-tauri/src/config.rs:22-51 | a written number reads back as itself, leaving the text after it |
| Toml.ExpectLiteral | renxin-app/src-tauri/src/config.rs:22-51 | a fixed key or header reads back, leaving the rest |
| Toml.ParseStringLineOf | renxin-app/src-tauri/src/config.rs:22-51 | a `key = "value"` line reads back as its value |
| Toml.ParseIntLineOf | renxin-app/src-tauri/src/config.rs:22-51 | a `key = number` line reads back as its number |
| Toml.ParseCameraTableOf | renxin-app/src-tauri/src/config.rs:30-37 | the `[camera]` table reads back as the same camera settings |
| Toml.ParseDataTableOf | renxin-app/src-tauri/src/config.rs:39-45 | the `[data]` table reads back as the same data settings |
| Toml.ParseNetworkTableOf | renxin-app/src-tauri/src/config.rs:47-51 | the `[network]` table reads back as the same port |
| Toml.ParseSerialize | renxin-app/src-tauri/src/lib.rs:113-115 | every settings record round-trips: parsing its document gives it back |
| Toml.SerializeInjective | renxin-app/src-tauri/src/config.rs:85 | different settings give different documents |
| Toml.ParseRejectsMissingHeader | renxin-app/src-tauri/src/config.rs:91-92 | a document that does not open with a table header is refused |
| Toml.ParseRejectsPlainText | renxin-app/src-tauri/src/lib.rs:133-141 | "this is not valid toml" is refused |
| ConfigStore.LoadOrCreateConfig | renxin-app/src-tauri/src/config.rs:73-95 | `load_or_create_config`: its result (a fresh state or the error) and the new disk are those of `LoadOrCreate` |
| ConfigStore.ConfigPathIsNotDir | renxin-app/src-tauri/src/config.rs:77 | the settings path is never the data directory itself |
| ConfigStore.LoadOrCreateAgreesWithDisk | renxin-app/src-tauri/src/config.rs:73-95 | on success, on either branch: the path is dir/config.toml, dir exists, and the file there parses to exactly the settings returned |
| ConfigStore.LoadOrCreateCreatesDefault | renxin-app/src-tauri/src/config.rs:53-83 | with no settings file: success exactly when neither creating dir nor writing the file is refused; the settings are the defaults (empty camera ids, 1280x720, 30 fps, 90 days, port 8080) with dir/data.db and dir/videos |
| ConfigStore.LoadOrCreateSavesDefault | renxin-app/src-tauri/src/config.rs:85-87 | on first start, the returned settings are written to the settings path, and no other file changes |
| ConfigStore.LoadOrCreateLoadsExisting | renxin-app/src-tauri/src/config.rs:88-94 | with a settings file present, no file is written; success exactly when it is readable text that parses; the result is its parse |
| ConfigStore.LoadOrCreateRejectsMalformed | renxin-app/src-tauri/src/config.rs:91-92 | an unparsable settings file fails with the path named, with no fallback to defaults, and the disk unchanged |
| ConfigStore.LoadOrCreateRejectsPlainText | renxin-app/src-tauri/src/lib.rs:133-141 | a settings file holding "this is not valid toml" makes start-up fail |
| ConfigStore.LoadOrCreateReturnsSaved | renxin-app/src-tauri/src/lib.rs:118-131 | a settings file holding saved settings loads as exactly those settings |
| ConfigStore.LoadOrCreateIsStable | renxin-app/src-tauri/src/config.rs:79-94 | a second start after a successful one returns the same settings and path, and changes nothing |
| Diagnostics.Padded | renxin-app/src-tauri/src/logging.rs:35 | a zero-padded field has exactly its width and only digits |
| Diagnostics.PaddedValue | renxin-app/src-tauri/src/logging.rs:35 | the padded digits denote n reduced to its last w digits, most significant digit first |
| Diagnostics.PaddedValueOfSmall | renxin-app/src-tauri/src/logging.rs:35 | a number that fits in w digits is exactly what its padded field denotes |
| Diagnostics.PaddedInjective | renxin-app/src-tauri/src/logging.rs:35 | numbers below 10^w have different w-wide padded forms |
| Diagnostics.Stamp | renxin-app/src-tauri/src/logging.rs:35 | `%Y%m%d` is eight digits |
| Diagnostics.StampFields | renxin-app/src-tauri/src/logging.rs:35 | the stamp is the 4-digit year, then the 2-digit month, then the 2-digit day |
| Diagnostics.StampSpellsDate | renxin-app/src-tauri/src/logging.rs:35 | the first four digits denote the year, the next two the month, the last two the day |
| Diagnostics.StampOfDay | renxin-app/src-tauri/src/logging.rs:35 | 17 October 2026 is stamped "20261017" |
| Diagnostics.StampInjective | renxin-app/src-tauri/src/logging.rs:35 | different days have different stamps |
| Diagnostics.ArchiveName | renxin-app/src-tauri/src/logging.rs:35-36 | `darts_diag_<stamp>.zip`; its behaviour is stated by `StampSpellsDate` and `ArchivePathsOfDifferentDaysDiffer` |
| Diagnostics.ArchivePath | renxin-app/src-tauri/src/logging.rs:37 | the archive name joined to the output directory; its behaviour is stated by `ArchivePathsOfDifferentDaysDiffer` |
| Diagnostics.AddFile | renxin-app/src-tauri/src/logging.rs:47-58 | adding one source to the archive when it exists; its behaviour is stated by `AddFileOutcome` and `AddFileIgnoresArchive` |
| Diagnostics.ArchivePathsOfDifferentDaysDiffer | renxin-app/src-tauri/src/logging.rs:35-37 | exports on different days to one directory write different archives; the same day gives the same path |
| Diagnostics.CreateDiagnosticZip | renxin-app/src-tauri/src/logging.rs:30-62 | `create_diagnostic_zip`: the result and the new disk are those of `DiagnosticZip` |
| Diagnostics.AddFileOutcome | renxin-app/src-tauri/src/logging.rs:47-51 | adding a source succeeds exactly when it is missing or a readable file; the entry is added exactly when the source exists, holding its contents |
| Diagnostics.AddFileIgnoresArchive | renxin-app/src-tauri/src/logging.rs:39-51 | creating the archive does not change what is read from a different source path |
| Diagnostics.RecreatedArchive | renxin-app/src-tauri/src/logging.rs:39-60 | emptying the archive file and then finishing it leaves the same files as finishing it directly |
| Diagnostics.DiagnosticZipContents | renxin-app/src-tauri/src/logging.rs:39-61 | success exactly when the archive can be created and both sources are missing or readable; then it returns the archive path, which holds "config.toml" if and only if the settings file exists and then "renxin.log" if and only if the log exists, each with its source's contents |
| Diagnostics.DiagnosticZipOnFailure | renxin-app/src-tauri/src/logging.rs:39-60 | on failure: nothing changes when the archive cannot be created; otherwise a partial archive is left, ending with an empty entry for the source that failed |
| Diagnostics.DiagnosticZipTouchesOnlyArchive | renxin-app/src-tauri/src/logging.rs:37-60 | the export changes no file but the archive, and no directory |
| Diagnostics.DiagnosticZipIsIdempotent | renxin-app/src-tauri/src/logging.rs:35-61 | exporting again on the same day gives the same result and the same disk |
| Diagnostics.DiagnosticZipOfTestDirectory | renxin-app/src-tauri/src/lib.rs:156-180 | with "test_config = true" and "test log entry" in one directory, the archive there holds exactly these two entries, in that order |
| State.AppState.constructor | renxin-app/src-tauri/src/state.rs:13-18 | `AppState::new` keeps the given settings and path unchanged |
| Commands.GetConfig | renxin-app/src-tauri/src/commands.rs:9-12 | always succeeds with the settings in force, and changes nothing |
| Commands.UpdateConfig | renxin-app/src-tauri/src/commands.rs:14-23 | the new settings are in force afterwards even when the save fails; the result and the disk are those of saving them to the state's settings path |
| Commands.SaveConfig | renxin-app/src-tauri/src/commands.rs:18-21 | serialising the settings and writing them to the settings path; its behaviour is stated by `SaveConfigOutcome` and `SaveConfigReadsBack` |
| Commands.SaveConfigOutcome | renxin-app/src-tauri/src/commands.rs:18-22 | the save succeeds exactly when the settings file can be written, and then only that file changes; on failure the disk is unchanged and the error is "Failed to write config file: " + the OS message |
| Commands.SaveConfigReadsBack | renxin-app/src-tauri/src/commands.rs:18-21 | after a successful save, the settings file parses to the new settings |
| Commands.SavedConfigIsLoadedOnRestart | renxin-app/src-tauri/src/commands.rs:14-23 | settings saved by an update are what the next start-up loads |
| Commands.DebugEscapeOfPlainText | renxin-app/src-tauri/src/commands.rs:39 | `{:?}` prints a path none of whose characters it escapes (no quote, apostrophe, backslash or escaped control character) as it is |
| Commands.DebugEscapeConcat | renxin-app/src-tauri/src/commands.rs:39 | `{:?}` escapes a path character by character: the escape of a concatenation concatenates the escapes |
| Commands.DebugPathAroundApostrophe | renxin-app/src-tauri/src/commands.rs:39 | the printed form of `a'b` is the printed `a`, then `\'`, then the printed `b`, inside quotes |
| Commands.DebugPathOfApostrophe | renxin-app/src-tauri/src/commands.rs:39 | an apostrophe in a path is printed as `\'` (so `/tmp/o'brien` prints as `"/tmp/o\'brien"`), the plain text around it as it is |
| Commands.DebugEscapeCharDecodes | renxin-app/src-tauri/src/commands.rs:39 | no escaped character can be confused with another character's rendering |
| Commands.DebugEscapeInjective | renxin-app/src-tauri/src/commands.rs:39 | different paths are printed differently |
| Commands.ExportDiagnosticInfo | renxin-app/src-tauri/src/commands.rs:25-42 | the message and the new disk are those of `ExportDiagnostics`, using the state's settings path; the settings in force are not touched |
| Commands.ExportDiagnosticsReport | renxin-app/src-tauri/src/commands.rs:31-41 | an unresolved log directory is reported as is, touching nothing; otherwise the bundle is taken from log_dir/renxin.log and the stored settings path; success exactly when the bundle succeeds, naming the archive of the day |
| Commands.ExportMessageNamesArchive | renxin-app/src-tauri/src/commands.rs:39 | two success messages are equal only when they name the same archive |

## Left out

- `UpdateConfig`: the "Failed to serialize config: " error is not modelled. `toml::to_string_pretty` fails only on a path that is not valid UTF-8, and paths here are strings.
- `MaskSensitiveInfo`: `\d` and `\b` are ASCII (digits `0-9`, word characters `[A-Za-z0-9_]`), not Unicode.
- `MaskSensitiveInfo`: `$` references in the replacement text are not expanded. The escaped home is taken literally.
- `MaskSensitiveInfo`: the home directory is a parameter. `None` stands for `dirs::home_dir()` being unknown or not valid UTF-8.
- Logging pipeline: `run()`, log rotation and the timestamped line format in lib.rs are host plumbing that depends on the clock.
- `LoadOrCreateConfig`: the `println!` messages are not modelled.
- `AppState`: the `Mutex` around the settings and its locking are not modelled. Commands run one at a time, and a poisoned lock is not modelled.
- Database: database.rs, the schema set-up through SQLite, is not part of this model.
- `CreateDiagnosticZip`: the date is a parameter (`chrono::Local::now`). Any day with a year of at most four digits is allowed.
- `CreateDiagnosticZip`: the archive is its list of entries. Deflate, the zip container and `unix_permissions(0o644)` are not modelled.
- `CreateDiagnosticZip`: errors from `start_file`, from writing into the archive and from `finish` are not modelled. Only opening the file, reading it, and creating the archive can fail.
- `CreateDiagnosticZip`: if the archive path equals a source path, the model reads the just-emptied archive file. The properties of the bundle assume the paths differ.
- `ExportDiagnosticInfo`: the log directory is a parameter (`app_log_dir`), either a path or the framework's error text.
- File system: contents are text or an archive, not bytes. A non-UTF-8 settings file is represented by an archive, which `ReadText` rejects.
- File system: paths are strings. `Path::join` appends with one `/`; an absolute name replacing the directory, normalisation, and parent directories are not modelled.
- File system: the environment's failures are a fixed map from paths to OS messages. A missing parent directory appears as such a failure.
- File system: the exact operating-system error text is that of Linux.
- `Parse`: it reads the layout that `Serialize` writes. Other TOML (comments, reordered keys, literal strings, escapes beyond `\" \\ \n \t \r`) is refused.
- `ParseRejectsMissingHeader`: it holds for this strict-layout parser only. The toml crate accepts a document that opens with a comment or a blank line before the first table header.
- `Serialize`: the layout of `to_string_pretty` is approximated. Line layout and escaping stand in for the toml crate's.
- `DebugPath`: the escapes modelled are `\" \' \\ \n \t \r \0`. Rust's `{:?}` of a path (`char::escape_debug` on every character) also writes grapheme-extending marks (such as U+0301), other control and non-printable characters as `\u{…}`, and bytes that are not UTF-8 as `\x…`; these are not modelled.
- `DebugEscapeOfPlainText`: its requires counts grapheme-extending marks and non-printable characters as plain, since `DebugEscapeChar` does not escape them; Rust's `{:?}` does.
- Config: `ConfigError` in config.rs is declared but never used. Errors are the model's own `IoError` and `LoadError`.
- `LoadError`: the `anyhow` error text of start-up is not modelled. A parse failure carries the path it names.
- UI: the front-end `Button` component and its test are not part of this model.
