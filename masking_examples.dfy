/**
 * Concrete examples of log lines run through the masking filter.
 *
 * The lemmas named `...Parts`, `...Split`, `...Letters` and `...IsDigitFree` only split a literal
 * line into its pieces or check a literal piece character by character. They are hints for the
 * solver, kept apart so that each example lemma that uses them stays small.
 */
module MaskingExamples {
  import opened Wrappers
  import opened Text
  import opened Masking

  /** The address in the unit-test line is a dotted quad. */
  lemma ConnectedLineQuad()
    ensures IsDottedQuad("192.168.1.100")
  {
    OctetsMakeDottedQuad("192", "168", "1", "100");
    assert "192" + "." + "168" + "." + "1" + "." + "100" == "192.168.1.100";
  }

  /** The unit-test line split around the address. */
  lemma ConnectedLineParts()
    ensures "Connected to " + "192.168.1.100" + " successfully" == "Connected to 192.168.1.100 successfully"
  {
  }

  /** The expected result split around the marker. */
  lemma ConnectedLineMaskedParts()
    ensures "Connected to " + "[MASKED_IP]" + " successfully" == "Connected to [MASKED_IP] successfully"
  {
  }

  /** The text around the address has no digits. */
  lemma ConnectedLineContext()
    ensures DigitFree("Connected to ") && DigitFree(" successfully")
  {
  }

  /** The IP pass alone on the line from the unit test. */
  lemma ConnectedLineIpPass()
    ensures MaskIpAddresses("Connected to 192.168.1.100 successfully")
         == "Connected to [MASKED_IP] successfully"
  {
    ConnectedLineQuad();
    ConnectedLineParts();
    ConnectedLineMaskedParts();
    ConnectedLineContext();
    MaskIpAddressesOfQuadInText("Connected to ", "192.168.1.100", " successfully");
  }

  /** The IP from the unit test is masked to exactly the expected line, whatever the home directory. */
  lemma ConnectedLineIsMasked(home: Option<string>)
    ensures MaskSensitiveInfo(home, "Connected to 192.168.1.100 successfully")
         == "Connected to [MASKED_IP] successfully"
  {
    if home.Some? {
      NoSeparatorNoHomeMatch(home.value, "Connected to 192.168.1.100 successfully");
      MaskHomePathsWithoutMatch(home.value, "Connected to 192.168.1.100 successfully");
    }
    ConnectedLineIpPass();
  }

  /** Four dot-separated runs of three digits are masked with no range check. */
  lemma OutOfRangeQuadIsMasked()
    ensures MaskIpAddresses("999.999.999.999") == "[MASKED_IP]"
  {
    OctetsMakeDottedQuad("999", "999", "999", "999");
    assert "999" + "." + "999" + "." + "999" + "." + "999" == "999.999.999.999";
    assert [] + "999.999.999.999" + [] == "999.999.999.999";
    assert [] + "[MASKED_IP]" + [] == "[MASKED_IP]";
    MaskIpAddressesOfQuadInText([], "999.999.999.999", []);
  }

  /** A quad glued to a letter on its left is not a match anywhere in the line. */
  lemma LetterGluedQuadIsKept()
    ensures MaskIpAddresses("a1.2.3.4") == "a1.2.3.4"
  {
    var s := "a1.2.3.4";
    forall k | 0 <= k < |s|
      ensures IpMatchLen(s, k) == 0
    {
      if k == 3 || k == 5 || k == 7 {
        assert DottedOctetEnd(s, 7) == None;
      }
    }
    MaskIpAddressesWithoutMatch(s);
  }

  /** A first run of four digits is no octet, and the quad inside it is glued to a digit: the line is kept. */
  lemma LongFirstRunIsKept()
    ensures MaskIpAddresses("1234.5.6.7") == "1234.5.6.7"
  {
    var s := "1234.5.6.7";
    forall k | 0 <= k < |s|
      ensures IpMatchLen(s, k) == 0
    {
      LongFirstRunNoMatchAt(k);
    }
    MaskIpAddressesWithoutMatch(s);
  }

  /** No match starts anywhere in "1234.5.6.7". */
  lemma LongFirstRunNoMatchAt(k: nat)
    requires k < 10
    ensures IpMatchLen("1234.5.6.7", k) == 0
  {
    if k == 0 {
      LongFirstRunIsNoOctet();
    } else if k == 5 || k == 7 || k == 9 {
      LongFirstRunTailIsShort(k);
    }
  }

  /** The first run has four digits, one too many for an octet. */
  lemma LongFirstRunIsNoOctet()
    ensures IpMatchLen("1234.5.6.7", 0) == 0
  {
    assert DigitRun("1234.5.6.7", 0) == 4;
  }

  /** From each later run at most three octets follow, one short of a quad. */
  lemma LongFirstRunTailIsShort(k: nat)
    requires k == 5 || k == 7 || k == 9
    ensures IpMatchLen("1234.5.6.7", k) == 0
  {
    assert DottedOctetEnd("1234.5.6.7", 9) == None;
  }

  /** The line of the unit test for a Unix home directory, split into its parts. */
  lemma UnixLineParts()
    ensures "Error accessing " + ("/home/alice" + ['/'] + "some" + "/file.txt")
         == "Error accessing /home/alice/some/file.txt"
  {
  }

  /** The expected masked line, split into its parts. */
  lemma UnixResultParts()
    ensures "Error accessing " + ("/home/alice" + "[/\\\\][MASKED]") + "/file.txt"
         == "Error accessing /home/alice[/\\\\][MASKED]/file.txt"
  {
  }

  /** The home pass on that line: the first component below home is replaced, the rest of the path is kept. */
  lemma UnixHomePass()
    ensures MaskHomePaths("/home/alice", "Error accessing /home/alice/some/file.txt")
         == "Error accessing /home/alice[/\\\\][MASKED]/file.txt"
  {
    var home, pre := "/home/alice", "Error accessing ";
    UnixLineParts();
    UnixResultParts();
    NoHomeMatchInPrefix(home, pre, home + ['/'] + "some" + "/file.txt");
    assert forall k :: 0 <= k < |"some"| ==> !IsSeparator("some"[k]);
    MaskHomePathsRewritesSegment(home, pre, '/', "some", "/file.txt");
    ShortTextKeepsHomePass(home, "/file.txt");
    UnixHomeIsPlain();
  }

  /** The Unix home has no regex metacharacter, so its escaped form is itself. */
  lemma UnixHomeIsPlain()
    ensures EscapeRegex("/home/alice") == "/home/alice"
  {
    EscapeRegexPlain("/home/alice");
  }

  /** The whole filter on that line; the IP pass finds no digits. */
  lemma UnixHomePathIsMasked()
    ensures MaskSensitiveInfo(Some("/home/alice"), "Error accessing /home/alice/some/file.txt")
         == "Error accessing /home/alice[/\\\\][MASKED]/file.txt"
  {
    UnixHomePass();
    UnixResultParts();
    ErrorPrefixIsDigitFree();
    ReplacementIsDigitFree();
    UnixHomeIsDigitFree();
    UnixFileIsDigitFree();
    DigitFreeConcat("/home/alice", "[/\\\\][MASKED]");
    DigitFreeConcat("Error accessing ", "/home/alice" + "[/\\\\][MASKED]");
    DigitFreeConcat("Error accessing " + ("/home/alice" + "[/\\\\][MASKED]"), "/file.txt");
    DigitFreeKeepsIpPass("Error accessing " + ("/home/alice" + "[/\\\\][MASKED]") + "/file.txt");
  }

  /** The pieces of the masked Unix line have no digit. */
  lemma UnixHomeIsDigitFree()
    ensures DigitFree("/home/alice")
  {
  }

  lemma UnixFileIsDigitFree()
    ensures DigitFree("/file.txt")
  {
  }

  /** A concrete example with a Windows home: the line split into its parts. */
  lemma WindowsLineParts()
    ensures "Error accessing " + ("C:\\Users\\bob" + ['\\'] + "Documents" + "\\notes.txt")
         == "Error accessing C:\\Users\\bob\\Documents\\notes.txt"
  {
  }

  /** The expected masked Windows line, split into its parts. */
  lemma WindowsResultParts()
    ensures "Error accessing " + ("C:\\\\Users\\\\bob" + "[/\\\\][MASKED]") + "\\notes.txt"
         == "Error accessing C:\\\\Users\\\\bob[/\\\\][MASKED]\\notes.txt"
  {
  }

  /** `regex::escape` doubles each backslash of the Windows home. */
  lemma WindowsHomeEscaped()
    ensures EscapeRegex("C:\\Users\\bob") == "C:\\\\Users\\\\bob"
  {
    WindowsHomeSplit();
    WindowsHomeLetters();
    EscapeBackslashJoined("C:", "Users", "bob");
  }

  /** The Windows home and its escaped form, split at the backslashes. */
  lemma WindowsHomeSplit()
    ensures "C:\\Users\\bob" == "C:" + ("\\" + ("Users" + ("\\" + "bob")))
    ensures "C:\\\\Users\\\\bob" == "C:" + ("\\\\" + ("Users" + ("\\\\" + "bob")))
  {
  }

  /** The pieces of the Windows home hold no metacharacter. */
  lemma WindowsHomeLetters()
    ensures Plain("C:") && Plain("Users") && Plain("bob")
  {
  }

  /** Escaping three plain pieces joined by backslashes doubles the backslashes and keeps the pieces. */
  lemma EscapeBackslashJoined(a: string, b: string, c: string)
    requires Plain(a) && Plain(b) && Plain(c)
    ensures EscapeRegex(a + ("\\" + (b + ("\\" + c)))) == a + ("\\\\" + (b + ("\\\\" + c)))
  {
    EscapeRegexConcat(a, "\\" + (b + ("\\" + c)));
    EscapeRegexConcat("\\", b + ("\\" + c));
    EscapeRegexConcat(b, "\\" + c);
    EscapeRegexConcat("\\", c);
    EscapeRegexPlain(a);
    EscapeRegexPlain(b);
    EscapeRegexPlain(c);
    BackslashEscaped();
  }

  /** A backslash is a metacharacter and gets a backslash in front. */
  lemma BackslashEscaped()
    ensures EscapeRegex("\\") == "\\\\"
  {
    assert "\\"[1..] == [];
  }

  /** The home pass on a Windows line: the escaped home stands in the output, the rest of the path is kept. */
  lemma WindowsHomePass()
    ensures MaskHomePaths("C:\\Users\\bob", "Error accessing C:\\Users\\bob\\Documents\\notes.txt")
         == "Error accessing C:\\\\Users\\\\bob[/\\\\][MASKED]\\notes.txt"
  {
    var home, pre := "C:\\Users\\bob", "Error accessing ";
    WindowsLineParts();
    WindowsResultParts();
    NoHomeMatchInPrefix(home, pre, home + ['\\'] + "Documents" + "\\notes.txt");
    assert forall k :: 0 <= k < |"Documents"| ==> !IsSeparator("Documents"[k]);
    MaskHomePathsRewritesSegment(home, pre, '\\', "Documents", "\\notes.txt");
    ShortTextKeepsHomePass(home, "\\notes.txt");
    WindowsHomeEscaped();
  }

  /** The whole filter on the Windows line; the IP pass finds no digits. */
  lemma WindowsHomePathIsMasked()
    ensures MaskSensitiveInfo(Some("C:\\Users\\bob"), "Error accessing C:\\Users\\bob\\Documents\\notes.txt")
         == "Error accessing C:\\\\Users\\\\bob[/\\\\][MASKED]\\notes.txt"
  {
    WindowsHomePass();
    WindowsResultParts();
    ErrorPrefixIsDigitFree();
    ReplacementIsDigitFree();
    WindowsHomeIsDigitFree();
    WindowsFileIsDigitFree();
    DigitFreeConcat("C:\\\\Users\\\\bob", "[/\\\\][MASKED]");
    DigitFreeConcat("Error accessing ", "C:\\\\Users\\\\bob" + "[/\\\\][MASKED]");
    DigitFreeConcat("Error accessing " + ("C:\\\\Users\\\\bob" + "[/\\\\][MASKED]"), "\\notes.txt");
    DigitFreeKeepsIpPass("Error accessing " + ("C:\\\\Users\\\\bob" + "[/\\\\][MASKED]") + "\\notes.txt");
  }

  /** The pieces of the masked Windows line have no digit. */
  lemma WindowsHomeIsDigitFree()
    ensures DigitFree("C:\\\\Users\\\\bob")
  {
  }

  lemma WindowsFileIsDigitFree()
    ensures DigitFree("\\notes.txt")
  {
  }

  /** The text around the path in both home-path examples has no digit. */
  lemma ErrorPrefixIsDigitFree()
    ensures DigitFree("Error accessing ")
  {
  }

  lemma ReplacementIsDigitFree()
    ensures DigitFree("[/\\\\][MASKED]")
  {
  }
}
