/**
  `Finding`: one finding file turned into the record the report is built from.
  The header line `# [<id>] <title>` gives the identifier, its number, the title
  and the severity; an optional status line `## _STATUS_=<status>` gives the
  resolution status and is taken out of the text; the rendered fragment is the
  HTML of the remaining text inside an anchored `div`.
*/
module FindingParser {
  import opened Strings
  import opened Errors
  import opened Typings
  import opened Constants
  import opened Markdown

  /** The fields a `Finding` holds once its constructor returns. */
  datatype Finding = Finding(
    id: string,              // the identifier without brackets, e.g. "H-01"
    idNum: int,              // the number after the `-`
    title: string,
    severity: Severity,
    status: FindingStatus,
    fragment: string,        // the Markdown text with the status line taken out
    renderFragment: string)  // the HTML placed into the report

  // ---------------------------------------------------------------------------
  // The header line
  // ---------------------------------------------------------------------------

  /** The first line of the finding text: everything before the first newline. */
  function FirstRow(fragment: string): (r: string)
    ensures '\n' !in r && |r| <= |fragment| && r == fragment[..|r|]
  {
    SplitFirst(fragment, "\n");
    SplitPiecesFreeOfChar(fragment, '\n');
    Split(fragment, "\n")[0]
  }

  /** What the header line yields: the line as it is kept (a missing title is
      written out as `-`), the identifier, its number, the title and the severity. */
  datatype Header = Header(row: string, id: string, idNum: int, title: string, severity: Severity)

  /** `int(id.split("-")[1].strip())` and then the severity of the upper-cased
      text before the `-`, in that order. */
  function ParseIdNumber(id: string): (r: Result<(int, Severity)>)
    ensures r.Ok? ==> '-' in id
    ensures r.Ok? ==> FolderSig(r.value.1) == Upper(Strip(Split(id, "-")[0]))
    ensures '-' !in id ==> r == Err(Raise(IndexError))
    ensures r.Err? ==> r.error.Raise?
  {
    SplitFirst(id, "-");
    ContainsCharIff(id, '-');
    var parts := Split(id, "-");
    if |parts| < 2 then Err(Raise(IndexError))
    else
      match PythonInt(Strip(parts[1]))
      case None => Err(Raise(ValueError(Strip(parts[1]))))
      case Some(n) =>
        var sig := Upper(Strip(parts[0]));
        match SeverityOfFolderSig(sig)
        case None => Err(Raise(ValueError(sig)))
        case Some(s) => Ok((n, s))
  }

  /** `first_row.split("]")[0]` and `[1]`: the text before the first `]` and the
      text between the first and the second `]`. */
  function RowPieces(row: string): (r: (string, string))
    requires ']' in row
    ensures ']' !in r.0 && ']' !in r.1
    ensures |r.0| < |row| && row == r.0 + "]" + row[|r.0| + 1..] && StartsWith(row[|r.0| + 1..], r.1)
  {
    ContainsCharIff(row, ']');
    SplitFirst(row, "]");
    SplitPiecesFreeOfChar(row, ']');
    var i := Find(row, "]").value;
    SplitUnfold(row, "]", i);
    SplitFirst(row[i + 1..], "]");
    (Split(row, "]")[0], Split(row, "]")[1])
  }

  /** `before.split("[")[1].strip()`: the stripped text after the first `[`, up to
      a second `[`; an `IndexError` when `before` holds no `[`. */
  function IdOfPiece(before: string): (r: Result<string>)
    ensures r.Err? <==> '[' !in before
    ensures r.Err? ==> r == Err(Raise(IndexError))
    ensures r.Ok? ==> '[' !in r.value && (']' !in before ==> ']' !in r.value)
  {
    ContainsCharIff(before, '[');
    SplitFirst(before, "[");
    var parts := Split(before, "[");
    if |parts| < 2 then Err(Raise(IndexError))
    else
      IdPieceFree(before);
      Ok(Strip(parts[1]))
  }

  lemma IdPieceFree(before: string)
    requires |Split(before, "[")| >= 2
    ensures var id := Strip(Split(before, "[")[1]);
            '[' !in id && (']' !in before ==> ']' !in id)
  {
    var parts := Split(before, "[");
    SplitPiecesFreeOfChar(before, '[');
    StripKeepsAbsent(parts[1], '[');
    if ']' !in before {
      SplitPiecesKeepAbsent(before, "[", ']');
      StripKeepsAbsent(parts[1], ']');
    }
  }

  /** Lines 27-47 of the constructor: the header line must hold both brackets; the
      identifier comes from the part before the first `]`; the title is the
      stripped text between the first and the second `]`, or `-` when nothing at
      all follows the first `]`, in which case the line is cut to `<before>] -`. */
  function ParseHeader(row: string): (r: Result<Header>)
    ensures r == Err(Exit(InvalidFindingFragment(row))) <==> '[' !in row || ']' !in row
    ensures r.Ok? ==> '[' !in r.value.id && ']' !in r.value.id && ']' !in r.value.title
  {
    if '[' !in row || ']' !in row then Err(Exit(InvalidFindingFragment(row)))
    else
      var (before, after) := RowPieces(row);
      match HeaderIdentifier(before)
      case Err(e) => Err(e)
      case Ok(ident) =>
        StripKeepsAbsent(after, ']');
        var missing := after == "";
        Ok(Header(if missing then before + "] -" else row, ident.0, ident.1,
                  if missing then "-" else Strip(after), ident.2))
  }

  /** Lines 43-47 of the constructor: the identifier from the text before the
      first `]`, then its number and its severity. */
  function HeaderIdentifier(before: string): (r: Result<(string, int, Severity)>)
    ensures r.Ok? ==> '[' !in r.value.0 && (']' !in before ==> ']' !in r.value.0)
    ensures r.Err? ==> r.error.Raise?
  {
    match IdOfPiece(before)
    case Err(e) => Err(e)
    case Ok(id) =>
      match ParseIdNumber(id)
      case Err(e) => Err(e)
      case Ok(p) => Ok((id, p.0, p.1))
  }

  // ---------------------------------------------------------------------------
  // The status line
  // ---------------------------------------------------------------------------

  /** Lines 51-62 of the constructor: without a status marker the status is
      Unresolved and the text is kept. Otherwise the value is the stripped text
      after the first marker (up to a second one); the placeholder value becomes
      Resolved everywhere; the value must name a status; and every marker followed
      directly by that status is deleted. */
  function ResolveStatus(text: string): (r: Result<(FindingStatus, string)>)
    ensures !Contains(text, FINDING_RESOLUTION_STATUS_HEADING) ==> r == Ok((Unresolved, text))
    ensures r.Err? ==> Contains(text, FINDING_RESOLUTION_STATUS_HEADING) && r.error.Raise? && r.error.exception.ValueError?
  {
    MarkedStatus(text, FINDING_RESOLUTION_STATUS_HEADING, RESOLUTION_STATUS_PLACEHOLDER)
  }

  /** `ResolveStatus` for any marker and placeholder text. */
  function MarkedStatus(text: string, marker: string, placeholder: string): (r: Result<(FindingStatus, string)>)
    requires |marker| > 0 && |placeholder| > 0
    ensures !Contains(text, marker) ==> r == Ok((Unresolved, text))
    ensures r.Err? ==> Contains(text, marker) && r.error.Raise? && r.error.exception.ValueError?
  {
    if !Contains(text, marker) then Ok((Unresolved, text))
    else
      SplitFirst(text, marker);
      var value := Strip(Split(text, marker)[1]);
      var isPlaceholder := value == placeholder;
      var text' := if isPlaceholder then ReplaceAll(text, value, StatusText(Resolved)) else text;
      var value' := if isPlaceholder then StatusText(Resolved) else value;
      match StatusOfText(value')
      case None => Err(Raise(ValueError(value')))
      case Some(st) => Ok((st, ReplaceAll(text', marker + StatusText(st), "")))
  }

  // ---------------------------------------------------------------------------
  // The rendered fragment
  // ---------------------------------------------------------------------------

  /** `[[<rank>_severity_index]]`: the token the report replaces by the number
      of the severity's subsection. */
  function SeverityIndexToken(s: Severity): string
  {
    "[[" + SeverityString(s) + "_severity_index]]"
  }

  /** The anchor of a finding: the findings section (index 8), a severity index
      still to be filled in by the report, and the finding's number. */
  function FindingAnchor(s: Severity, idNum: int): (r: string)
    ensures StartsWith(r, "section-8-" + SeverityIndexToken(s) + "-")
  {
    var head := "section-8-" + SeverityIndexToken(s) + "-";
    assert (head + IntToString(idNum))[..|head|] == head;
    head + IntToString(idNum)
  }

  /** The opening tag of a finding's `div`. */
  function FindingDivOpen(s: Severity, idNum: int): string
  {
    "<div id=\"" + FindingAnchor(s, idNum) + "\" class=\"finding\">"
  }

  /** `render_fragment`: the rendered text inside the anchored `div`. */
  function RenderFragment(s: Severity, idNum: int, html: string): (r: string)
    ensures Contains(r, FindingDivOpen(s, idNum))
    ensures EndsWith(r, html + "\n            </div>\n        ")
  {
    var open := FindingDivOpen(s, idNum);
    var head := "\n            " + open + "\n                ";
    var tail := "\n            </div>\n        ";
    OccursInMiddle("\n            ", open, "\n                ");
    OccursExtend(head, html + tail, open, |"\n            "|);
    EndsWithConcat(head, html + tail);
    head + (html + tail)
  }

  // ---------------------------------------------------------------------------
  // The constructor
  // ---------------------------------------------------------------------------

  /** `Finding(fragment)`: the header, then the status, then the rendering. */
  function ParseFinding(fragment: string, render: string -> string): (r: Result<Finding>)
    ensures r.Ok? ==> ParseHeader(FirstRow(fragment)).Ok?
    ensures r.Ok? ==> var h := ParseHeader(FirstRow(fragment)).value;
                      r.value.id == h.id && r.value.idNum == h.idNum && r.value.title == h.title
                      && r.value.severity == h.severity
    ensures r.Ok? ==> r.value.renderFragment
                      == RenderFragment(r.value.severity, r.value.idNum, render(r.value.fragment))
    ensures r.Ok? <==> HeaderText(fragment).Ok? && ResolveStatus(HeaderText(fragment).value.1).Ok?
    ensures r.Ok? ==> (r.value.status, r.value.fragment) == ResolveStatus(HeaderText(fragment).value.1).value
    ensures r.Err? ==> r.error == if HeaderText(fragment).Err? then HeaderText(fragment).error
                                  else ResolveStatus(HeaderText(fragment).value.1).error
  {
    var row := FirstRow(fragment);
    match ParseHeader(row)
    case Err(e) => Err(e)
    case Ok(header) =>
      match ResolveStatus(header.row + fragment[|row|..])
      case Err(e) => Err(e)
      case Ok(status) =>
        var html := CreateHtmlFromMarkdown(render, status.1, false);
        Ok(Finding(header.id, header.idNum, header.title, header.severity, status.0, status.1,
                   RenderFragment(header.severity, header.idNum, html)))
  }

  /** The text of the finding once the header line is settled. */
  function HeaderText(fragment: string): (r: Result<(Header, string)>)
  {
    var row := FirstRow(fragment);
    match ParseHeader(row)
    case Err(e) => Err(e)
    case Ok(header) => Ok((header, header.row + fragment[|row|..]))
  }

  /** Lines 25-47 of the constructor, step by step: the rows of the text, the
      header line read by `ReadHeaderRow`, and the text rejoined with the header
      line as it is kept. */
  method ReadHeader(fragment: string) returns (r: Result<(Header, string)>)
    ensures r == HeaderText(fragment)
  {
    var rows := Split(fragment, "\n");
    var firstRow := rows[0];
    assert firstRow == FirstRow(fragment);
    var header := ReadHeaderRow(firstRow);
    if header.Err? {
      return Err(header.error);
    }
    ghost var original := rows;
    rows := rows[0 := header.value.row];
    var text := Join(rows, "\n");
    assert text == header.value.row + fragment[|firstRow|..] by {
      JoinSplit(fragment, "\n");
      JoinReplaceFirst(original, header.value.row, "\n");
    }
    return Ok((header.value, text));
  }

  /** Lines 27-47 of the constructor, step by step, on the header line alone. */
  method ReadHeaderRow(row: string) returns (r: Result<Header>)
    ensures r == ParseHeader(row)
  {
    if '[' !in row || ']' !in row {
      return Err(Exit(InvalidFindingFragment(row)));
    }
    var fragments := Split(row, "]");
    ghost var pieces := RowPieces(row);
    assert |fragments| >= 2 && fragments[0] == pieces.0 && fragments[1] == pieces.1 by {
      ContainsCharIff(row, ']');
      SplitFirst(row, "]");
    }
    var before, after := fragments[0], fragments[1];
    var keptRow := row;
    if after == "" {
      after := "-";
      keptRow := before + "] -";
      StripNoSpace(after);
    }
    var ident := ReadIdentifier(before);
    if ident.Err? {
      assert HeaderIdentifier(pieces.0) == ident;
      return Err(ident.error);
    }
    var title := Strip(after);
    var header := Header(keptRow, ident.value.0, ident.value.1, title, ident.value.2);
    assert ParseHeader(row) == Ok(header);
    return Ok(header);
  }

  /** Lines 43-47 of the constructor, step by step. */
  method ReadIdentifier(before: string) returns (r: Result<(string, int, Severity)>)
    ensures r == HeaderIdentifier(before)
  {
    var idParts := Split(before, "[");
    if |idParts| < 2 {
      assert IdOfPiece(before).Err?;
      return Err(Raise(IndexError));
    }
    var id := Strip(idParts[1]);
    assert IdOfPiece(before) == Ok(id);
    var parsed := ReadIdNumber(id);
    if parsed.Err? {
      return Err(parsed.error);
    }
    return Ok((id, parsed.value.0, parsed.value.1));
  }

  /** Lines 44 and 47 of the constructor, step by step. */
  method ReadIdNumber(id: string) returns (r: Result<(int, Severity)>)
    ensures r == ParseIdNumber(id)
  {
    var numberParts := Split(id, "-");
    if |numberParts| < 2 {
      return Err(Raise(IndexError));
    }
    var idNum := PythonInt(Strip(numberParts[1]));
    if idNum.None? {
      return Err(Raise(ValueError(Strip(numberParts[1]))));
    }
    var severity := SeverityOfFolderSig(Upper(Strip(numberParts[0])));
    if severity.None? {
      return Err(Raise(ValueError(Upper(Strip(numberParts[0])))));
    }
    return Ok((idNum.value, severity.value));
  }

  /** Lines 48-62 of the constructor, step by step. */
  method ReadStatus(fragment: string) returns (r: Result<(FindingStatus, string)>)
    ensures r == ResolveStatus(fragment)
  {
    var text := fragment;
    var status: Option<FindingStatus> := None;
    if Contains(text, FINDING_RESOLUTION_STATUS_HEADING) {
      SplitFirst(text, FINDING_RESOLUTION_STATUS_HEADING);
      var value := Strip(Split(text, FINDING_RESOLUTION_STATUS_HEADING)[1]);
      if value == RESOLUTION_STATUS_PLACEHOLDER {
        text := ReplaceAll(text, value, StatusText(Resolved));
        value := StatusText(Resolved);
      }
      status := StatusOfText(value);
      if status.None? {
        return Err(Raise(ValueError(value)));
      }
      text := ReplaceAll(text, FINDING_RESOLUTION_STATUS_HEADING + StatusText(status.value), "");
    }
    if status.None? {
      status := Some(Unresolved);
    }
    return Ok((status.value, text));
  }

  /** `Finding(fragment)`: the header, then the status, then the rendering. */
  method NewFinding(fragment: string, render: string -> string) returns (r: Result<Finding>)
    ensures r == ParseFinding(fragment, render)
  {
    var header := ReadHeader(fragment);
    if header.Err? {
      return Err(header.error);
    }
    var (h, text) := header.value;
    var status := ReadStatus(text);
    if status.Err? {
      return Err(status.error);
    }
    var html := CreateHtmlFromMarkdown(render, status.value.1, false);
    return Ok(Finding(h.id, h.idNum, h.title, h.severity, status.value.0, status.value.1,
                      RenderFragment(h.severity, h.idNum, html)));
  }

  // ---------------------------------------------------------------------------
  // Properties
  // ---------------------------------------------------------------------------

  /** A header line `<p>[<id>]<rest>`, with no bracket in `p` or `id` and no `]`
      in `rest`: the identifier is `id` stripped, the title is `rest` stripped
      (only whitespace gives `""`), and a line ending right after the `]` gets
      the title `-` and is rewritten to `<p>[<id>] -`. */
  lemma HeaderOfRow(p: string, id: string, rest: string)
    requires '[' !in p && ']' !in p && '[' !in id && ']' !in id && ']' !in rest
    ensures var row := p + "[" + id + "]" + rest;
            ParseHeader(row).Ok? <==> ParseIdNumber(Strip(id)).Ok?
    ensures var row := p + "[" + id + "]" + rest;
            ParseHeader(row).Ok? ==>
              var n := ParseIdNumber(Strip(id)).value;
              ParseHeader(row).value
              == Header(if rest == "" then p + "[" + id + "] -" else row, Strip(id), n.0,
                        if rest == "" then "-" else Strip(rest), n.1)
  {
    RowPiecesOf(p, id, rest);
    IdOfPieceOf(p, id);
  }

  lemma RowPiecesOf(p: string, id: string, rest: string)
    requires '[' !in p && ']' !in p && '[' !in id && ']' !in id && ']' !in rest
    ensures var row := p + "[" + id + "]" + rest;
            '[' in row && ']' in row && RowPieces(row) == (p + "[" + id, rest)
  {
    var before := p + "[" + id;
    var row := before + "]" + rest;
    assert ']' !in before;
    SplitAroundChar(before, ']', rest);
    assert row[|p|] == '[' && row[|before|] == ']';
  }

  lemma IdOfPieceOf(p: string, id: string)
    requires '[' !in p && '[' !in id
    ensures IdOfPiece(p + "[" + id) == Ok(Strip(id))
  {
    SplitAroundChar(p, '[', id);
  }

  /** An identifier `<sig>-<digits>`: the number is the digits' value (leading
      zeros allowed) and the severity is that of the upper-cased signature, so a
      lower-case signature is accepted. */
  lemma IdNumberOf(sig: string, digits: string, s: Severity)
    requires '-' !in sig && |sig| > 0 && !IsSpace(sig[0]) && !IsSpace(sig[|sig| - 1])
    requires |digits| > 0 && AllDigits(digits)
    requires SeverityOfFolderSig(Upper(sig)) == Some(s)
    ensures ParseIdNumber(sig + "-" + digits) == Ok((DigitsValue(digits) as int, s))
  {
    assert '-' !in digits by {
      forall i | 0 <= i < |digits|
        ensures digits[i] != '-'
      {
        assert IsDigit(digits[i]);
      }
    }
    SplitAroundChar(sig, '-', digits);
    StripDigits(digits);
    StripSurrounded("", sig, "");
    assert "" + sig + "" == sig;
  }

  /** A header line `<p>[<sig>-<digits>]<rest>` with a known signature and a
      title after the `]`: the identifier is `<sig>-<digits>`, the number the
      digits' value, the title `rest` stripped and the severity that of the
      upper-cased signature; the line is kept as it is. */
  lemma HeaderOfId(p: string, sig: string, digits: string, rest: string, s: Severity)
    requires '[' !in p && ']' !in p && ']' !in rest && rest != ""
    requires '-' !in sig && '[' !in sig && ']' !in sig && |sig| > 0 && !IsSpace(sig[0]) && !IsSpace(sig[|sig| - 1])
    requires |digits| > 0 && AllDigits(digits) && SeverityOfFolderSig(Upper(sig)) == Some(s)
    ensures var id := sig + "-" + digits;
            var row := p + "[" + id + "]" + rest;
            ParseHeader(row) == Ok(Header(row, id, DigitsValue(digits) as int, Strip(rest), s))
  {
    var id := sig + "-" + digits;
    assert '[' !in digits && ']' !in digits && !IsSpace(digits[|digits| - 1]) by {
      forall i | 0 <= i < |digits| ensures digits[i] != '[' && digits[i] != ']' && !IsSpace(digits[i]) {
        assert IsDigit(digits[i]);
      }
    }
    assert id[0] == sig[0] && id[|id| - 1] == digits[|digits| - 1];
    assert '[' !in sig + "-" && ']' !in sig + "-";
    assert '[' !in id && ']' !in id;
    StripSurrounded("", id, "");
    assert "" + id + "" == id;
    IdNumberOf(sig, digits, s);
    HeaderOfRow(p, id, rest);
  }

  /** `# [h-03] X` has the identifier `h-03`, number 3, severity HIGH and title `X`. */
  lemma ExampleHeader()
    ensures ParseHeader("# [h-03] X") == Ok(Header("# [h-03] X", "h-03", 3, "X", HIGH))
  {
    ExampleSpelling();
    ExampleValues();
    HeaderOfId("# ", "h", "03", " X", HIGH);
  }

  /** The example's signature upper-cased, its digits' value and its title stripped. */
  lemma ExampleValues()
    ensures Upper("h") == "H" && AllDigits("03") && DigitsValue("03") == 3 && Strip(" X") == "X"
  {
    assert Upper("h")[0] == 'H';
    assert "03"[..1] == "0";
    assert "0"[..0] == "";
    assert " X"[1..] == "X";
    assert LStrip("X") == "X";
    assert RStrip("X") == "X";
  }

  /** The example line and identifier, spelled out from their pieces. */
  lemma ExampleSpelling()
    ensures "h" + "-" + "03" == "h-03" && "# " + "[" + "h-03" + "]" + " X" == "# [h-03] X"
  {
    assert "# " + "[" == "# [";
    assert "# [" + "h-03" == "# [h-03";
    assert "# [h-03" + "]" == "# [h-03]";
    assert "# [h-03]" + " X" == "# [h-03] X";
  }

  /** The status line sits after a text `a` in which no marker starts, and the
      text after the marker holds no other marker: the status value is that
      text, stripped. */
  lemma StatusValue(a: string, m: string, tail: string)
    requires |m| > 0 && NoMatchStartsIn(a, m) && !Contains(tail, m)
    ensures Contains(a + m + tail, m) && Strip(Split(a + m + tail, m)[1]) == Strip(tail)
  {
    FindAfterNoMatch(a, m, tail);
    SplitAfterNoMatch(a, m, tail);
    SplitFirst(tail, m);
  }

  /** Deleting `m + v` from `a + m + v + ws` leaves `a + ws`. */
  lemma RemoveStatusLine(a: string, m: string, v: string, ws: string)
    requires |m| > 0 && NoMatchStartsIn(a, m) && m[0] !in ws
    ensures ReplaceAll(a + m + v + ws, m + v, "") == a + ws
  {
    var pat := m + v;
    NoMatchExtend(a, m, v);
    Assoc4(a, m, v, ws);
    Assoc3(m, v, ws);
    ReplaceAllSkipPiece(a, pat + ws, pat, "");
    ReplaceAllAtFront(ws, pat, "");
    ReplaceAllSkipPrefix(ws, "", pat, "");
    assert ws + "" == ws;
  }

  predicate AllSpace(ws: string)
  {
    forall i :: 0 <= i < |ws| ==> IsSpace(ws[i])
  }

  /** The shape of the marker and the placeholder that the status lemmas use:
      neither starts with whitespace, the marker's first character is in no
      status text and not in the placeholder, and the placeholder names no
      status, starts with a character absent from the marker and ends with a
      non-space. */
  predicate MarkerShape(m: string, ph: string)
  {
    |m| > 0 && |ph| > 0 && !IsSpace(m[0]) && !IsSpace(ph[0]) && !IsSpace(ph[|ph| - 1])
    && m[0] !in ph && ph[0] !in m
    && (forall st :: m[0] !in StatusText(st) && StatusText(st) != ph)
  }

  lemma MarkerShapeOfConstants()
    ensures MarkerShape(FINDING_RESOLUTION_STATUS_HEADING, RESOLUTION_STATUS_PLACEHOLDER)
  {
    assert FINDING_RESOLUTION_STATUS_HEADING[0] == '#';
    assert RESOLUTION_STATUS_PLACEHOLDER[0] == '{';
    forall st ensures StatusText(st) != RESOLUTION_STATUS_PLACEHOLDER {
      assert StatusText(st)[0] != '{';
    }
  }

  lemma SpacesAbsent(ws: string, c: char)
    requires AllSpace(ws) && !IsSpace(c)
    ensures c !in ws
  {
  }

  /** A status line naming a status, last in the text: that status, and the line
      is taken out of the text. */
  /** The value after a marker followed by `lead + core + ws` (whitespace around a
      core that neither starts nor ends with whitespace, and no marker character
      after it) is the core. */
  lemma ValueAfterMarker(a: string, m: string, tail: string, lead: string, core: string, ws: string)
    requires |m| > 0 && !IsSpace(m[0]) && NoMatchStartsIn(a, m) && m[0] !in core
    requires AllSpace(lead) && AllSpace(ws) && tail == lead + core + ws
    requires |core| > 0 && !IsSpace(core[0]) && !IsSpace(core[|core| - 1])
    ensures Contains(a + m + tail, m) && Strip(Split(a + m + tail, m)[1]) == core
  {
    SpacesAbsent(lead, m[0]);
    SpacesAbsent(ws, m[0]);
    assert m[0] !in tail;
    NoFirstCharNoFind(tail, m);
    StatusValue(a, m, tail);
    StripSurrounded(lead, core, ws);
  }

  /** `MarkedStatus` once the value after the first marker is known to name a status. */
  lemma MarkedNamed(text: string, m: string, ph: string, st: FindingStatus)
    requires |m| > 0 && |ph| > 0 && Contains(text, m)
    requires Strip(Split(text, m)[1]) == StatusText(st) && StatusText(st) != ph
    ensures MarkedStatus(text, m, ph) == Ok((st, ReplaceAll(text, m + StatusText(st), "")))
  {
    assert StatusOfText(StatusText(st)) == Some(st);
  }

  /** `MarkedStatus` once the value after the first marker is the placeholder. */
  lemma MarkedPlaceholderValue(text: string, m: string, ph: string)
    requires |m| > 0 && |ph| > 0 && Contains(text, m) && Strip(Split(text, m)[1]) == ph
    ensures MarkedStatus(text, m, ph)
            == Ok((Resolved, ReplaceAll(ReplaceAll(text, ph, StatusText(Resolved)), m + StatusText(Resolved), "")))
  {
    assert StatusOfText(StatusText(Resolved)) == Some(Resolved);
  }

  lemma MarkedExplicit(a: string, m: string, ph: string, st: FindingStatus, ws: string)
    requires MarkerShape(m, ph) && NoMatchStartsIn(a, m) && AllSpace(ws)
    ensures MarkedStatus(a + m + StatusText(st) + ws, m, ph) == Ok((st, a + ws))
  {
    var text := a + m + StatusText(st) + ws;
    assert "" + StatusText(st) == StatusText(st);
    ValueAfterMarker(a, m, StatusText(st) + ws, "", StatusText(st), ws);
    Assoc3(a + m, StatusText(st), ws);
    MarkedNamed(text, m, ph, st);
    SpacesAbsent(ws, m[0]);
    RemoveStatusLine(a, m, StatusText(st), ws);
  }

  lemma StatusExplicit(a: string, st: FindingStatus, ws: string)
    requires NoMatchStartsIn(a, FINDING_RESOLUTION_STATUS_HEADING) && AllSpace(ws)
    ensures ResolveStatus(a + FINDING_RESOLUTION_STATUS_HEADING + StatusText(st) + ws) == Ok((st, a + ws))
  {
    MarkerShapeOfConstants();
    MarkedExplicit(a, FINDING_RESOLUTION_STATUS_HEADING, RESOLUTION_STATUS_PLACEHOLDER, st, ws);
  }

  /** The template's status line: the placeholder value makes the finding
      Resolved and the line is taken out. */
  lemma MarkedPlaceholder(a: string, m: string, ph: string, ws: string)
    requires MarkerShape(m, ph) && NoMatchStartsIn(a, m) && NoMatchStartsIn(a, ph) && AllSpace(ws)
    ensures MarkedStatus(a + m + ph + ws, m, ph) == Ok((Resolved, a + ws))
  {
    var text := a + m + ph + ws;
    var resolved := StatusText(Resolved);
    assert "" + ph == ph;
    ValueAfterMarker(a, m, ph + ws, "", ph, ws);
    Assoc3(a + m, ph, ws);
    MarkedPlaceholderValue(text, m, ph);
    assert ReplaceAll(text, ph, resolved) == a + m + resolved + ws by {
      SpacesAbsent(ws, ph[0]);
      PlaceholderInStatusLine(a, m, ph, resolved, ws);
    }
    SpacesAbsent(ws, m[0]);
    RemoveStatusLine(a, m, resolved, ws);
  }

  /** Replacing the placeholder in `a + m + ph + ws` touches the status line only. */
  lemma PlaceholderInStatusLine(a: string, m: string, ph: string, v: string, ws: string)
    requires |ph| > 0 && NoMatchStartsIn(a, ph) && ph[0] !in m && ph[0] !in ws
    ensures ReplaceAll(a + m + ph + ws, ph, v) == a + m + v + ws
  {
    ReplaceAllSkipPiece(a, m + (ph + ws), ph, v);
    ReplaceAllSkipPrefix(m, ph + ws, ph, v);
    ReplaceAllAtFront(ws, ph, v);
    ReplaceAllSkipPrefix(ws, "", ph, v);
    Assoc4(a, m, ph, ws);
    Assoc4(a, m, v, ws);
    assert ws + "" == ws;
  }

  lemma StatusPlaceholder(a: string, ws: string)
    requires NoMatchStartsIn(a, FINDING_RESOLUTION_STATUS_HEADING)
    requires NoMatchStartsIn(a, RESOLUTION_STATUS_PLACEHOLDER)
    requires AllSpace(ws)
    ensures ResolveStatus(a + FINDING_RESOLUTION_STATUS_HEADING + RESOLUTION_STATUS_PLACEHOLDER + ws)
            == Ok((Resolved, a + ws))
  {
    MarkerShapeOfConstants();
    MarkedPlaceholder(a, FINDING_RESOLUTION_STATUS_HEADING, RESOLUTION_STATUS_PLACEHOLDER, ws);
  }

  /** A status value that names no status (and is not the placeholder) raises
      `ValueError` with that value; a status line followed by more text is one. */
  lemma StatusRejected(a: string, tail: string)
    requires NoMatchStartsIn(a, FINDING_RESOLUTION_STATUS_HEADING)
    requires !Contains(tail, FINDING_RESOLUTION_STATUS_HEADING)
    requires StatusOfText(Strip(tail)).None? && Strip(tail) != RESOLUTION_STATUS_PLACEHOLDER
    ensures ResolveStatus(a + FINDING_RESOLUTION_STATUS_HEADING + tail) == Err(Raise(ValueError(Strip(tail))))
  {
    StatusValue(a, FINDING_RESOLUTION_STATUS_HEADING, tail);
  }

  /** A space between the marker and the value still yields that status, but the
      line is not `marker + status` and stays in the text. */
  lemma MarkedSpacedStays(a: string, m: string, ph: string, st: FindingStatus, ws: string)
    requires MarkerShape(m, ph) && NoMatchStartsIn(a, m) && AllSpace(ws)
    requires NoMatchStartsIn(m + " " + StatusText(st) + ws, m + StatusText(st))
    ensures var text := a + m + " " + StatusText(st) + ws;
            MarkedStatus(text, m, ph) == Ok((st, text))
  {
    var x := m + " " + StatusText(st) + ws;
    var tail := " " + StatusText(st) + ws;
    var text := a + m + " " + StatusText(st) + ws;
    Assoc4(a + m, " ", StatusText(st), ws);
    Assoc3(" ", StatusText(st), ws);
    Assoc4(a, m, " ", StatusText(st) + ws);
    Assoc4(m, " ", StatusText(st), ws);
    assert text == a + m + tail;
    assert text == a + x;
    ValueAfterMarker(a, m, tail, " ", StatusText(st), ws);
    MarkedNamed(text, m, ph, st);
    var pat := m + StatusText(st);
    assert ReplaceAll(text, pat, "") == text by {
      NoMatchExtend(a, m, StatusText(st));
      ReplaceAllSkipPiece(a, x, pat, "");
      ReplaceAllNoMatch(x, pat, "");
    }
  }

  /** No `## _STATUS_=<status>` starts inside `## _STATUS_= <status><ws>`. */
  lemma SpacedMarkerNoMatch(st: FindingStatus, ws: string)
    requires AllSpace(ws)
    ensures NoMatchStartsIn(FINDING_RESOLUTION_STATUS_HEADING + " " + StatusText(st) + ws,
                            FINDING_RESOLUTION_STATUS_HEADING + StatusText(st))
  {
    var h := FINDING_RESOLUTION_STATUS_HEADING;
    var v := StatusText(st);
    var x := h + " " + v + ws;
    var pat := h + v;
    assert x[12] == ' ' && pat[12] == v[0] && v[0] != ' ';
    MismatchAt(x, pat, 12);
    assert x[1..][1] == ' ' && pat[1] == '#';
    MismatchAt(x[1..], pat, 1);
    SpacesAbsent(ws, '#');
    assert '#' !in v;
    assert x[2..] == h[2..] + " " + v + ws;
    assert '#' !in h[2..];
    NoMatchWithoutFirstChar(x[2..], pat);
    assert x[1..][1..] == x[2..];
  }

  lemma StatusSpacedStays(a: string, st: FindingStatus, ws: string)
    requires NoMatchStartsIn(a, FINDING_RESOLUTION_STATUS_HEADING) && AllSpace(ws)
    ensures var text := a + FINDING_RESOLUTION_STATUS_HEADING + " " + StatusText(st) + ws;
            ResolveStatus(text) == Ok((st, text))
  {
    MarkerShapeOfConstants();
    SpacedMarkerNoMatch(st, ws);
    MarkedSpacedStays(a, FINDING_RESOLUTION_STATUS_HEADING, RESOLUTION_STATUS_PLACEHOLDER, st, ws);
  }
}
