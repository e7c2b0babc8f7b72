/**
  The severity and identifier vocabulary of findings: the `Severity` enum and its
  cast tables, the folder signatures that name finding files, the command-line
  annotations, the resolution statuses, and the parsing of identifiers such as
  `[H-01]`.
*/
module Typings {
  import opened Strings
  import opened Errors

  /** The six severity levels; their values rank them from 1 (gas) to 6 (critical). */
  datatype Severity = GAS | QA | LOW | MEDIUM | HIGH | CRITICAL

  /** Every severity, in ascending order of value. Dictionaries keyed by severity
      that the tool builds by iterating over `Severity` have this key order. */
  const AllSeverities: seq<Severity> := [GAS, QA, LOW, MEDIUM, HIGH, CRITICAL]

  /** `severity.value`: the rank is the 1-based position in ascending order. */
  function Rank(s: Severity): (r: nat)
    ensures 1 <= r <= |AllSeverities| && AllSeverities[r - 1] == s
  {
    match s
    case GAS => 1
    case QA => 2
    case LOW => 3
    case MEDIUM => 4
    case HIGH => 5
    case CRITICAL => 6
  }

  /** `str(severity)`: the rank as a single decimal digit. */
  function SeverityString(s: Severity): (r: string)
    ensures |r| == 1 && AllDigits(r) && DigitsValue(r) == Rank(s)
  {
    NatToString(Rank(s))
  }

  /** `severity.name`, the enum member's name. */
  function Name(s: Severity): string
  {
    match s
    case GAS => "GAS"
    case QA => "QA"
    case LOW => "LOW"
    case MEDIUM => "MEDIUM"
    case HIGH => "HIGH"
    case CRITICAL => "CRITICAL"
  }

  /** `severity.cast_to_folder_sig().value`: the prefix of finding file names.
      A signature is never empty and holds no character that the identifier or
      file-name syntax uses as a delimiter. */
  function FolderSig(s: Severity): (r: string)
    ensures |r| > 0
    ensures '-' !in r && '[' !in r && ']' !in r && '.' !in r && ' ' !in r && '`' !in r
  {
    match s
    case GAS => "GAS"
    case QA => "QA"
    case LOW => "L"
    case MEDIUM => "M"
    case HIGH => "H"
    case CRITICAL => "C"
  }

  /** `SeverityFolderIndex(sig).cast_to_severity()`; `None` where the enum lookup
      raises `ValueError`. It answers `s` exactly when `sig` is the signature of `s`. */
  function SeverityOfFolderSig(sig: string): (r: Option<Severity>)
    ensures forall s :: r == Some(s) <==> FolderSig(s) == sig
  {
    if sig == "GAS" then Some(GAS)
    else if sig == "QA" then Some(QA)
    else if sig == "L" then Some(LOW)
    else if sig == "M" then Some(MEDIUM)
    else if sig == "H" then Some(HIGH)
    else if sig == "C" then Some(CRITICAL)
    else None
  }

  /** Casting a severity to its signature and back is the identity. */
  lemma FolderSigRoundTrip(s: Severity)
    ensures SeverityOfFolderSig(FolderSig(s)) == Some(s)
  {
  }

  /** Distinct severities have distinct signatures. */
  lemma FolderSigInjective(s: Severity, t: Severity)
    ensures FolderSig(s) == FolderSig(t) ==> s == t
  {
    FolderSigRoundTrip(s);
    FolderSigRoundTrip(t);
  }

  /** `severity.cast_to_display_case()`: the label used in headings and tables. */
  function DisplayCase(s: Severity): (r: string)
    ensures |r| > 0 && Upper(r) == Name(s)
  {
    match s
    case GAS => "GAS"
    case QA => "QA"
    case LOW => "Low"
    case MEDIUM => "Medium"
    case HIGH => "High"
    case CRITICAL => "Critical"
  }

  /** The display labels are pairwise distinct. */
  lemma DisplayCaseInjective(s: Severity, t: Severity)
    ensures DisplayCase(s) == DisplayCase(t) ==> s == t
  {
    if DisplayCase(s) == DisplayCase(t) {
      assert Name(s) == Name(t);
    }
  }

  /** The value of the `SeverityAnnotation` member named like `s`: the command-line
      spelling of a severity. */
  function Annotation(s: Severity): (r: string)
    ensures Upper(r) == Name(s)
  {
    match s
    case GAS => "gas"
    case QA => "qa"
    case LOW => "low"
    case MEDIUM => "medium"
    case HIGH => "high"
    case CRITICAL => "critical"
  }

  /** `SeverityAnnotation(a).cast_to_severity()`; `None` where the lookup raises
      `ValueError`. Each annotation casts to the severity of the same name. */
  function SeverityOfAnnotation(a: string): (r: Option<Severity>)
    ensures forall s :: r == Some(s) <==> a == Annotation(s)
  {
    if a == "gas" then Some(GAS)
    else if a == "qa" then Some(QA)
    else if a == "low" then Some(LOW)
    else if a == "medium" then Some(MEDIUM)
    else if a == "high" then Some(HIGH)
    else if a == "critical" then Some(CRITICAL)
    else None
  }

  /** `FindingStatusAnnotation`. */
  datatype FindingStatus = Acknowledged | Unresolved | Disputed | Resolved | PartiallyResolved

  /** The member's value, as written in a finding's status line. */
  function StatusText(st: FindingStatus): (r: string)
    ensures |r| > 0 && !IsSpace(r[0]) && !IsSpace(r[|r| - 1])
  {
    match st
    case Acknowledged => "Acknowledged"
    case Unresolved => "Unresolved"
    case Disputed => "Disputed"
    case Resolved => "Resolved"
    case PartiallyResolved => "Partially Resolved"
  }

  /** `FindingStatusAnnotation(text)`; `None` where the lookup raises `ValueError`. */
  function StatusOfText(text: string): (r: Option<FindingStatus>)
    ensures forall st :: r == Some(st) <==> text == StatusText(st)
  {
    if text == "Acknowledged" then Some(Acknowledged)
    else if text == "Unresolved" then Some(Unresolved)
    else if text == "Disputed" then Some(Disputed)
    else if text == "Resolved" then Some(Resolved)
    else if text == "Partially Resolved" then Some(PartiallyResolved)
    else None
  }

  // ---------------------------------------------------------------------------
  // FindingIdentifier
  // ---------------------------------------------------------------------------

  /** A parsed identifier: `str()` of it is `findingId`, the text without brackets. */
  datatype FindingIdentifier = FindingIdentifier(findingId: string, severity: Severity, index: int)

  /** Every `[` and then every `]` deleted. */
  function DeleteBrackets(text: string): (r: string)
    ensures '[' !in r && ']' !in r
    ensures '[' !in text && ']' !in text ==> r == text
  {
    var once := ReplaceAll(text, "[", "");
    ReplaceAllDeletesChar(text, '[');
    ReplaceAllKeepsAbsent(once, "]", "", '[');
    ReplaceAllDeletesChar(once, ']');
    if '[' !in text && ']' !in text then
      ReplaceAllNoChar(text, '[', "");
      ReplaceAllNoChar(text, ']', "");
      ReplaceAll(once, "]", "")
    else
      ReplaceAll(once, "]", "")
  }

  /** What `FindingIdentifier(text)` yields: the identifier, the `exit(1)` it
      performs, or the exception it raises. */
  function ParseIdentifier(text: string): (r: Result<FindingIdentifier>)
    ensures r.Ok? ==> r.value.findingId == DeleteBrackets(text) && r.value.index >= 0
    ensures Count(DeleteBrackets(text), "-") != 1 <==> r == Err(Exit(FindingIdDashCount))
  {
    var id := DeleteBrackets(text);
    if Count(id, "-") != 1 then Err(Exit(FindingIdDashCount))
    else
      var parts := Split(id, "-");
      ParseParts(id, parts[0], parts[1])
  }

  /** The steps after the split at the dash: the signature lookup, the check that
      every index character is a digit, and the conversion with one leading zero
      dropped. */
  function ParseParts(id: string, sigText: string, index: string): (r: Result<FindingIdentifier>)
    ensures r.Ok? ==> r.value.findingId == id && r.value.index >= 0
    ensures r.Ok? ==> FolderSig(r.value.severity) == sigText
    ensures r.Err? ==> r.error != Exit(FindingIdDashCount)
    ensures SeverityOfFolderSig(sigText).None? ==> r == Err(Raise(ValueError(sigText)))
    ensures SeverityOfFolderSig(sigText).Some? && !AllDigits(index) ==> r == Err(Exit(InvalidFindingIndex(index)))
    ensures SeverityOfFolderSig(sigText).Some? && AllDigits(index) ==> (r.Ok? <==> index != "" && index != "0")
  {
    match SeverityOfFolderSig(sigText)
    case None => Err(Raise(ValueError(sigText)))
    case Some(severity) =>
      if !AllDigits(index) then Err(Exit(InvalidFindingIndex(index)))
      else
        var digits := if StartsWith(index, "0") then index[1..] else index;
        assert AllDigits(digits) by {
          forall i | 0 <= i < |digits| ensures IsDigit(digits[i]) {
            if StartsWith(index, "0") { assert digits[i] == index[i + 1]; }
          }
        }
        assert |digits| == 0 <==> index == "" || index == "0";
        match PythonInt(digits)
        case None => Err(Raise(ValueError(digits)))
        case Some(n) => Ok(FindingIdentifier(id, severity, n))
  }

  /** A bracket-free text with one dash is handed to the later steps as the two
      sides of the dash. */
  lemma ParseIdentifierOfParts(text: string, sigText: string, index: string)
    requires '-' !in sigText && '-' !in index
    requires DeleteBrackets(text) == sigText + "-" + index
    ensures ParseIdentifier(text) == ParseParts(sigText + "-" + index, sigText, index)
  {
    SplitAroundChar(sigText, '-', index);
    assert sigText + "-" + index == sigText + ['-'] + index;
  }

  /** The brackets around a bracket-free text are deleted. */
  lemma DeleteBracketsAround(id: string)
    requires '[' !in id && ']' !in id
    ensures DeleteBrackets("[" + id + "]") == id
  {
    var once := ReplaceAll("[" + id + "]", "[", "");
    assert once == id + "]" by {
      assert "[" + id + "]" == "[" + (id + "]");
      ReplaceAllAtFront(id + "]", "[", "");
      ReplaceAllNoChar(id + "]", '[', "");
    }
    assert ReplaceAll(once, "]", "") == id by {
      ReplaceAllSkipPrefix(id, "]", "]", "");
      assert ReplaceAll("]", "]", "") == "" by {
        ReplaceAllAtFront("", "]", "");
        assert "]" + "" == "]";
      }
      assert id + "" == id;
    }
  }

  /** `FindingIdentifier.__init__`: deletes the brackets, checks the dash count,
      looks up the signature, checks every index character, then converts the
      index with one leading zero dropped. */
  method NewFindingIdentifier(text: string) returns (r: Result<FindingIdentifier>)
    ensures r == ParseIdentifier(text)
  {
    var findingId := ReplaceAll(text, "[", "");
    findingId := ReplaceAll(findingId, "]", "");
    if Count(findingId, "-") != 1 {
      return Err(Exit(FindingIdDashCount));
    }
    var parts := Split(findingId, "-");
    var sigText, index := parts[0], parts[1];
    var severity := SeverityOfFolderSig(sigText);
    if severity.None? {
      return Err(Raise(ValueError(sigText)));
    }
    for i := 0 to |index|
      invariant AllDigits(index[..i])
    {
      if !IsDigit(index[i]) {
        return Err(Exit(InvalidFindingIndex(index)));
      }
    }
    assert index[..|index|] == index;
    var digits := if StartsWith(index, "0") then index[1..] else index;
    var n := PythonInt(digits);
    if n.None? {
      return Err(Raise(ValueError(digits)));
    }
    return Ok(FindingIdentifier(findingId, severity.value, n.value));
  }

  /** The steps after the dash accept a signature and an all-digit index whose
      leading zero, if any, is followed by more digits. */
  lemma ParsePartsCanonical(s: Severity, digits: string)
    requires AllDigits(digits)
    requires |digits| > 0 && (digits[0] == '0' ==> |digits| > 1)
    ensures ParseParts(FolderSig(s) + "-" + digits, FolderSig(s), digits)
         == Ok(FindingIdentifier(FolderSig(s) + "-" + digits, s, DigitsValue(digits)))
  {
    FolderSigRoundTrip(s);
    assert StartsWith(digits, "0") <==> digits[0] == '0' by {
      assert digits[..1] == [digits[0]];
    }
    if digits[0] == '0' {
      DigitsValueLeadingZero(digits);
    }
  }

  /** The canonical form `SIG-DIGITS`, bare or bracketed, parses to the severity
      of the signature and the value of the digits. */
  lemma ParseCanonical(s: Severity, digits: string)
    requires AllDigits(digits)
    requires |digits| > 0 && (digits[0] == '0' ==> |digits| > 1)
    ensures var id := FolderSig(s) + "-" + digits;
            ParseIdentifier(id) == Ok(FindingIdentifier(id, s, DigitsValue(digits)))
            && ParseIdentifier("[" + id + "]") == Ok(FindingIdentifier(id, s, DigitsValue(digits)))
  {
    var sig := FolderSig(s);
    var id := sig + "-" + digits;
    assert '-' !in digits && '[' !in digits && ']' !in digits by {
      assert forall i :: 0 <= i < |digits| ==> IsDigit(digits[i]);
    }
    assert '[' !in id && ']' !in id;
    DeleteBracketsAround(id);
    ParseIdentifierOfParts("[" + id + "]", sig, digits);
    ParseIdentifierOfParts(id, sig, digits);
    ParsePartsCanonical(s, digits);
  }

  /** An index of `0` or an empty index fails conversion with `ValueError`. */
  lemma ParseEmptyIndexFails(s: Severity)
    ensures ParseIdentifier(FolderSig(s) + "-0") == Err(Raise(ValueError("")))
    ensures ParseIdentifier(FolderSig(s) + "-") == Err(Raise(ValueError("")))
  {
    var sig := FolderSig(s);
    assert '[' !in sig + "-0" && ']' !in sig + "-0";
    Assoc3(sig, "-", "0");
    DashZero();
    ParseIdentifierOfParts(sig + "-0", sig, "0");
    EmptyDigitsFail(sig + "-0", s, "0");
    assert '[' !in sig + "-" && ']' !in sig + "-";
    assert sig + "-" == sig + "-" + "";
    ParseIdentifierOfParts(sig + "-", sig, "");
    EmptyDigitsFail(sig + "-", s, "");
  }

  lemma DashZero()
    ensures "-" + "0" == "-0"
  {
  }

  /** An index that is empty once one leading zero is dropped fails the
      conversion with an empty message. */
  lemma EmptyDigitsFail(id: string, s: Severity, index: string)
    requires index == "" || index == "0"
    ensures ParseParts(id, FolderSig(s), index) == Err(Raise(ValueError("")))
  {
    FolderSigRoundTrip(s);
    if index == "0" {
      assert StartsWith(index, "0") && index[1..] == "";
    }
  }

  /** Two dashes exit with the dash-count message, whatever else the text holds. */
  lemma ParseTwoDashes(a: string, b: string, c: string)
    requires '-' !in a && '-' !in b && '-' !in c
    requires '[' !in a + b + c && ']' !in a + b + c
    ensures ParseIdentifier(a + "-" + b + "-" + c) == Err(Exit(FindingIdDashCount))
  {
    var text := a + "-" + b + "-" + c;
    assert '[' !in text && ']' !in text;
    FindChar(a, '-', b + "-" + c);
    assert text == a + "-" + (b + "-" + c);
    SplitAtFirst(a, "-", b + "-" + c);
    SplitAroundChar(b, '-', c);
    assert b + "-" + c == b + ['-'] + c;
  }
}
