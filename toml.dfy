/**
 * The TOML encoding of the settings record: the document `toml::to_string_pretty` writes for a
 * `Config` (three tables, kebab-case keys, basic strings, decimal integers) and a parser for it.
 * The parser accepts the layout the writer produces, rejects everything else, and enforces the
 * integer ranges of the record's `u32` and `u16` fields. The round trip is proved.
 */
module Toml {
  import opened Wrappers
  import opened Text
  import opened Config

  // ---------------------------------------------------------------------------------------------
  // Basic strings
  // ---------------------------------------------------------------------------------------------

  /** How one character is written inside a TOML basic string. */
  function EscapeChar(c: char): string
  {
    if c == '"' then "\\\""
    else if c == '\\' then "\\\\"
    else if c == '\n' then "\\n"
    else if c == '\t' then "\\t"
    else if c == '\r' then "\\r"
    else [c]
  }

  /** The character an escape sequence `\x` stands for, if `x` names one. */
  function UnescapeChar(x: char): Option<char>
  {
    if x == '"' then Some('"')
    else if x == '\\' then Some('\\')
    else if x == 'n' then Some('\n')
    else if x == 't' then Some('\t')
    else if x == 'r' then Some('\r')
    else None
  }

  /** The body of a basic string holding s. */
  function Escape(s: string): string
  {
    if s == [] then [] else EscapeChar(s[0]) + Escape(s[1..])
  }

  /**
   * Reads a basic-string body up to its closing quote: the value and the text after the quote.
   * A dangling or unknown escape, or a raw line break, is an error.
   */
  function Unquote(s: string): Option<(string, string)>
    decreases |s|
  {
    if s == [] then None
    else if s[0] == '"' then Some(([], s[1..]))
    else if s[0] == '\\' then
      if |s| < 2 then None
      else
        var c :- UnescapeChar(s[1]);
        var r :- Unquote(s[2..]);
        Some(([c] + r.0, r.1))
    else if s[0] == '\n' || s[0] == '\r' then None
    else
      var r :- Unquote(s[1..]);
      Some(([s[0]] + r.0, r.1))
  }

  /** Every escape the writer produces is read back as the character it came from. */
  lemma UnescapeEscapeChar(c: char)
    ensures |EscapeChar(c)| == 2 ==>
      EscapeChar(c)[0] == '\\' && UnescapeChar(EscapeChar(c)[1]) == Some(c)
    ensures |EscapeChar(c)| == 1 ==>
      EscapeChar(c) == [c] && c != '"' && c != '\\' && c != '\n' && c != '\r'
    ensures 1 <= |EscapeChar(c)| <= 2
  {
  }

  /** Reading a written string gives back the string and exactly the text after it. */
  lemma {:induction false} UnquoteEscape(x: string, rest: string)
    ensures Unquote(Escape(x) + ("\"" + rest)) == Some((x, rest))
    decreases |x|
  {
    var s := Escape(x) + ("\"" + rest);
    if x == [] {
      assert s == "\"" + rest;
    } else {
      var e := EscapeChar(x[0]);
      var t := Escape(x[1..]) + ("\"" + rest);
      ConcatAssociates(e, Escape(x[1..]), "\"" + rest);
      assert s == e + t;
      UnquoteEscape(x[1..], rest);
      UnescapeEscapeChar(x[0]);
      ConcatSplit(e, t);
      if |e| == 2 {
        assert s[0] == '\\' && s[1] == e[1];
        assert s[2..] == t;
      } else {
        assert s[0] == x[0];
        assert s[1..] == t;
      }
      assert [x[0]] + x[1..] == x;
    }
  }

  // ---------------------------------------------------------------------------------------------
  // Decimal integers
  // ---------------------------------------------------------------------------------------------

  /** The decimal numeral of n, without leading zeros. */
  function Decimal(n: nat): (s: string)
    ensures s != [] && AllDigits(s)
  {
    if n < 10 then [DigitChar(n)] else Decimal(n / 10) + [DigitChar(n % 10)]
  }

  /** The longest run of digits at the front of s. */
  function LeadingDigits(s: string): (ds: string)
    ensures AllDigits(ds) && ds <= s
  {
    if s != [] && IsDigit(s[0]) then [s[0]] + LeadingDigits(s[1..]) else []
  }

  /** Reads a decimal integer: its value and the text after it. */
  function ParseNat(s: string): Option<(nat, string)>
  {
    var ds := LeadingDigits(s);
    if ds == [] then None else Some((NumeralValue(ds), s[|ds|..]))
  }

  /** A numeral denotes the number it was written for. */
  lemma {:induction false} NumeralValueOfDecimal(n: nat)
    ensures NumeralValue(Decimal(n)) == n
  {
    var ds := Decimal(n);
    if n >= 10 {
      assert ds[..|ds| - 1] == Decimal(n / 10);
      NumeralValueOfDecimal(n / 10);
    }
  }

  /** The digit run at the front stops exactly where the digits stop. */
  lemma {:induction false} LeadingDigitsOfNumeral(ds: string, rest: string)
    requires AllDigits(ds)
    requires rest == [] || !IsDigit(rest[0])
    ensures LeadingDigits(ds + rest) == ds
    decreases |ds|
  {
    if ds != [] {
      assert (ds + rest)[0] == ds[0];
      assert (ds + rest)[1..] == ds[1..] + rest;
      LeadingDigitsOfNumeral(ds[1..], rest);
      assert [ds[0]] + ds[1..] == ds;
    } else {
      assert ds + rest == rest;
    }
  }

  /** Reading a written number gives back the number and exactly the text after it. */
  lemma ParseNatDecimal(n: nat, rest: string)
    requires rest == [] || !IsDigit(rest[0])
    ensures ParseNat(Decimal(n) + rest) == Some((n, rest))
  {
    LeadingDigitsOfNumeral(Decimal(n), rest);
    NumeralValueOfDecimal(n);
    ConcatSplit(Decimal(n), rest);
  }

  // ---------------------------------------------------------------------------------------------
  // Key/value lines
  // ---------------------------------------------------------------------------------------------

  /** Consumes the literal text lit at the front of s. */
  function Expect(lit: string, s: string): (r: Option<string>)
  {
    if lit <= s then Some(s[|lit|..]) else None
  }

  lemma ExpectLiteral(lit: string, rest: string)
    ensures Expect(lit, lit + rest) == Some(rest)
  {
    ConcatSplit(lit, rest);
  }

  /** `key = "value"` on a line of its own. */
  function StringLine(key: string, v: string): string
  {
    key + " = \"" + Escape(v) + "\"\n"
  }

  /** `key = 123` on a line of its own. */
  function IntLine(key: string, n: nat): string
  {
    key + " = " + Decimal(n) + "\n"
  }

  function ParseStringLine(key: string, s: string): Option<(string, string)>
  {
    var a :- Expect(key + " = \"", s);
    var r :- Unquote(a);
    var b :- Expect("\n", r.1);
    Some((r.0, b))
  }

  function ParseIntLine(key: string, s: string): Option<(nat, string)>
  {
    var a :- Expect(key + " = ", s);
    var r :- ParseNat(a);
    var b :- Expect("\n", r.1);
    Some((r.0, b))
  }

  lemma ParseStringLineOf(key: string, v: string, rest: string)
    ensures ParseStringLine(key, StringLine(key, v) + rest) == Some((v, rest))
  {
    var k := key + " = \"";
    var tail := "\"" + ("\n" + rest);
    assert StringLine(key, v) + rest == k + (Escape(v) + tail);
    ExpectLiteral(k, Escape(v) + tail);
    UnquoteEscape(v, "\n" + rest);
    ExpectLiteral("\n", rest);
  }

  lemma ParseIntLineOf(key: string, n: nat, rest: string)
    ensures ParseIntLine(key, IntLine(key, n) + rest) == Some((n, rest))
  {
    var k := key + " = ";
    assert IntLine(key, n) + rest == k + (Decimal(n) + ("\n" + rest));
    ExpectLiteral(k, Decimal(n) + ("\n" + rest));
    ParseNatDecimal(n, "\n" + rest);
    ExpectLiteral("\n", rest);
  }

  // ---------------------------------------------------------------------------------------------
  // The document
  // ---------------------------------------------------------------------------------------------

  const CameraHeader := "[camera]\n"
  const DataHeader := "\n[data]\n"
  const NetworkHeader := "\n[network]\n"

  function CameraTable(c: CameraConfig): string
  {
    CameraHeader + (StringLine("posture-camera-id", c.postureCameraId)
      + (StringLine("board-camera-id", c.boardCameraId)
      + (StringLine("video-resolution", c.videoResolution)
      + IntLine("video-framerate", c.videoFramerate as nat))))
  }

  function DataTable(d: DataConfig): string
  {
    DataHeader + (StringLine("database-path", d.databasePath)
      + (StringLine("video-storage-path", d.videoStoragePath)
      + IntLine("auto-delete-days", d.autoDeleteDays as nat)))
  }

  function NetworkTable(n: NetworkConfig): string
  {
    NetworkHeader + IntLine("rpc-port", n.rpcPort as nat)
  }

  /** `toml::to_string_pretty` of the settings record. */
  function Serialize(c: Config): string
  {
    CameraTable(c.camera) + (DataTable(c.data) + NetworkTable(c.network))
  }

  function ParseCameraTable(s: string): Option<(CameraConfig, string)>
  {
    var a :- Expect(CameraHeader, s);
    var posture :- ParseStringLine("posture-camera-id", a);
    var board :- ParseStringLine("board-camera-id", posture.1);
    var resolution :- ParseStringLine("video-resolution", board.1);
    var framerate :- ParseIntLine("video-framerate", resolution.1);
    if framerate.0 < 0x1_0000_0000 then
      Some((CameraConfig(posture.0, board.0, resolution.0, framerate.0 as u32), framerate.1))
    else None
  }

  function ParseDataTable(s: string): Option<(DataConfig, string)>
  {
    var a :- Expect(DataHeader, s);
    var database :- ParseStringLine("database-path", a);
    var videos :- ParseStringLine("video-storage-path", database.1);
    var days :- ParseIntLine("auto-delete-days", videos.1);
    if days.0 < 0x1_0000_0000 then
      Some((DataConfig(database.0, videos.0, days.0 as u32), days.1))
    else None
  }

  function ParseNetworkTable(s: string): Option<(NetworkConfig, string)>
  {
    var a :- Expect(NetworkHeader, s);
    var port :- ParseIntLine("rpc-port", a);
    if port.0 < 0x1_0000 then Some((NetworkConfig(port.0 as u16), port.1)) else None
  }

  /** `toml::from_str` into the settings record: None when the text is not such a document. */
  function Parse(s: string): Option<Config>
  {
    var camera :- ParseCameraTable(s);
    var data :- ParseDataTable(camera.1);
    var network :- ParseNetworkTable(data.1);
    if network.1 == [] then Some(Config(camera.0, data.0, network.0)) else None
  }

  lemma ParseCameraTableOf(c: CameraConfig, rest: string)
    ensures ParseCameraTable(CameraTable(c) + rest) == Some((c, rest))
  {
    var l1 := StringLine("posture-camera-id", c.postureCameraId);
    var l2 := StringLine("board-camera-id", c.boardCameraId);
    var l3 := StringLine("video-resolution", c.videoResolution);
    var l4 := IntLine("video-framerate", c.videoFramerate as nat);
    ConcatAssociates(CameraHeader, l1 + (l2 + (l3 + l4)), rest);
    ConcatAssociates(l1, l2 + (l3 + l4), rest);
    ConcatAssociates(l2, l3 + l4, rest);
    ConcatAssociates(l3, l4, rest);
    ExpectLiteral(CameraHeader, l1 + (l2 + (l3 + (l4 + rest))));
    ParseStringLineOf("posture-camera-id", c.postureCameraId, l2 + (l3 + (l4 + rest)));
    ParseStringLineOf("board-camera-id", c.boardCameraId, l3 + (l4 + rest));
    ParseStringLineOf("video-resolution", c.videoResolution, l4 + rest);
    ParseIntLineOf("video-framerate", c.videoFramerate as nat, rest);
  }

  lemma ParseDataTableOf(d: DataConfig, rest: string)
    ensures ParseDataTable(DataTable(d) + rest) == Some((d, rest))
  {
    var l1 := StringLine("database-path", d.databasePath);
    var l2 := StringLine("video-storage-path", d.videoStoragePath);
    var l3 := IntLine("auto-delete-days", d.autoDeleteDays as nat);
    ConcatAssociates(DataHeader, l1 + (l2 + l3), rest);
    ConcatAssociates(l1, l2 + l3, rest);
    ConcatAssociates(l2, l3, rest);
    ExpectLiteral(DataHeader, l1 + (l2 + (l3 + rest)));
    ParseStringLineOf("database-path", d.databasePath, l2 + (l3 + rest));
    ParseStringLineOf("video-storage-path", d.videoStoragePath, l3 + rest);
    ParseIntLineOf("auto-delete-days", d.autoDeleteDays as nat, rest);
  }

  lemma ParseNetworkTableOf(n: NetworkConfig, rest: string)
    ensures ParseNetworkTable(NetworkTable(n) + rest) == Some((n, rest))
  {
    var l := IntLine("rpc-port", n.rpcPort as nat);
    ConcatAssociates(NetworkHeader, l, rest);
    ExpectLiteral(NetworkHeader, l + rest);
    ParseIntLineOf("rpc-port", n.rpcPort as nat, rest);
  }

  /** Reading back what was written gives the same settings. */
  lemma {:induction false} ParseSerialize(c: Config)
    ensures Parse(Serialize(c)) == Some(c)
  {
    var n := NetworkTable(c.network);
    ParseCameraTableOf(c.camera, DataTable(c.data) + n);
    ParseDataTableOf(c.data, n);
    assert n == n + [];
    ParseNetworkTableOf(c.network, []);
  }

  /** Different settings are written as different documents. */
  lemma SerializeInjective(c: Config, c': Config)
    requires Serialize(c) == Serialize(c')
    ensures c == c'
  {
    ParseSerialize(c);
    ParseSerialize(c');
  }

  /** Text that does not start with the first table header is rejected. */
  lemma ParseRejectsMissingHeader(s: string)
    requires s == [] || s[0] != '['
    ensures Parse(s) == None
  {
    assert CameraHeader[0] == '[';
  }

  /** A line of free text is not a settings document. */
  lemma ParseRejectsPlainText()
    ensures Parse("this is not valid toml") == None
  {
    ParseRejectsMissingHeader("this is not valid toml");
  }
}
