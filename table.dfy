/**
  The HTML tables of the report: the generic table wrapper with its optional
  title, and the four tables the report template asks for (severity
  classification, protocol information, findings count, findings summary). The
  `tabulate` renderer and the Markdown renderer are function-typed parameters.
*/
module Tables {
  import opened Strings
  import opened Errors
  import opened Typings
  import opened Constants
  import opened Markdown
  import opened FindingParser
  import opened EnvironmentUtils

  /** `tabulate(rows, headers=columns, tablefmt="html")`. */
  type Tabulate = (seq<seq<string>>, seq<string>) -> string

  // ---------------------------------------------------------------------------
  // create_html_table
  // ---------------------------------------------------------------------------

  /** The table wrapper around the rendered table, with the title slot. */
  const TABLE_OPEN: string := "\n        <div class=" + "\"table-wrapper\">\n            "
  const TITLE_SLOT: string := "[[" + "title" + "]]"
  const TABLE_BEFORE_BODY: string := "\n            "
  const TABLE_CLOSE: string := "\n        </div>\n        "

  /** What replaces the title slot: nothing for an empty title, otherwise the
      title inside `<tag>`, with the no-underline class unless that is switched off. */
  function TitleHeading(title: string, tag: string, removeUnderline: bool): (r: string)
    ensures title == "" <==> r == ""
  {
    var cls := if removeUnderline then " " + "class=\"no-underline-heading\"" else "";
    if title == "" then "" else "<" + tag + cls + ">" + title + "</" + tag + ">"
  }

  /** Python's `str()` of a list of strings without quotes or backslashes:
      `['a', 'b']`. */
  function ListRepr(row: seq<string>): string
  {
    "[" + Join(QuotedCells(row), ", ") + "]"
  }

  function QuotedCells(row: seq<string>): (r: seq<string>)
    ensures |r| == |row|
    decreases |row|
  {
    if |row| == 0 then [] else ["'" + row[0] + "'"] + QuotedCells(row[1..])
  }

  /** The wrapper around the rendered rows, with the title slot filled. */
  function TitledTable(rows: seq<seq<string>>, columns: seq<string>, title: string, tag: string,
                       removeUnderline: bool, tabulate: Tabulate): string
  {
    var table := TABLE_OPEN + TITLE_SLOT + TABLE_BEFORE_BODY + tabulate(rows, columns) + TABLE_CLOSE;
    ReplaceAll(table, TITLE_SLOT, TitleHeading(title, tag, removeUnderline))
  }

  const ROW_OPEN: string := "<tr><td>"
  const BOLD_ROW_OPEN: string := "<tr class=\"bold-text\"><td>"

  /** `create_html_table` as written: with `highlightLastRow` the text `<tr><td>`
      followed by Python's `str()` of the last row (a list) gets the bold class;
      an empty row list raises `IndexError`. */
  function CreateHtmlTableAsWritten(rows: seq<seq<string>>, columns: seq<string>, title: string,
                                    highlightLastRow: bool, tag: string, removeUnderline: bool,
                                    tabulate: Tabulate): (r: Result<string>)
    ensures r.Err? <==> highlightLastRow && |rows| == 0
  {
    var titled := TitledTable(rows, columns, title, tag, removeUnderline, tabulate);
    if !highlightLastRow then Ok(titled)
    else if |rows| == 0 then Err(Raise(IndexError))
    else
      var row := ListRepr(rows[|rows| - 1]);
      Ok(ReplaceAll(titled, ROW_OPEN + row, BOLD_ROW_OPEN + row))
  }

  /** `create_html_table` with the highlight it is meant to have: the row that
      starts with the last row's first cell gets the bold class. An empty row
      list, or an empty last row, raises `IndexError`. */
  function CreateHtmlTable(rows: seq<seq<string>>, columns: seq<string>, title: string,
                           highlightLastRow: bool, tag: string, removeUnderline: bool,
                           tabulate: Tabulate): (r: Result<string>)
    ensures r.Err? <==> highlightLastRow && (|rows| == 0 || |rows[|rows| - 1]| == 0)
    ensures !highlightLastRow ==> r == CreateHtmlTableAsWritten(rows, columns, title, false, tag, removeUnderline, tabulate)
  {
    var titled := TitledTable(rows, columns, title, tag, removeUnderline, tabulate);
    if !highlightLastRow then Ok(titled)
    else if |rows| == 0 || |rows[|rows| - 1]| == 0 then Err(Raise(IndexError))
    else
      var cell := rows[|rows| - 1][0];
      Ok(ReplaceAll(titled, ROW_OPEN + cell, BOLD_ROW_OPEN + cell))
  }

  /** The pieces of the wrapper hold no `[`. */
  lemma WrapperLacksBracket()
    ensures '[' !in TABLE_OPEN && '[' !in TABLE_BEFORE_BODY && '[' !in TABLE_CLOSE
  {
    var a, b := "\n        <div class=", "\"table-wrapper\">\n            ";
    assert '[' !in a;
    assert '[' !in b;
    assert TABLE_OPEN == a + b;
    assert '[' !in a + b;
    assert '[' !in TABLE_BEFORE_BODY;
    assert '[' !in TABLE_CLOSE;
  }

  /** Filling a slot that occurs once: the text around the slot holds no first
      character of it, and the body holds no match of it. */
  lemma {:induction false} SlotFilled(open: string, slot: string, mid: string, body: string,
                                      close: string, heading: string)
    requires |slot| > 0 && slot[0] !in open && slot[0] !in mid && slot[0] !in close
    requires NoMatchStartsIn(body, slot)
    ensures ReplaceAll(open + slot + mid + body + close, slot, heading)
            == open + heading + mid + body + close
  {
    var rest := mid + (body + close);
    assert open + slot + mid + body + close == open + (slot + rest);
    ReplaceAllSkipPrefix(open, slot + rest, slot, heading);
    ReplaceAllAtFront(rest, slot, heading);
    NoMatchWithoutFirstChar(mid, slot);
    ReplaceAllSkipPiece(mid, body + close, slot, heading);
    ReplaceAllSkipPiece(body, close, slot, heading);
    NoMatchWithoutFirstChar(close, slot);
    ReplaceAllNoMatch(close, slot, heading);
    assert open + (heading + (mid + (body + close))) == open + heading + mid + body + close;
  }

  /** When the rendered rows hold no text that could start the title slot, the
      slot of the wrapper is the only one filled: the table is the wrapper with
      the title heading in place of the slot. */
  lemma TableLayout(rows: seq<seq<string>>, columns: seq<string>, title: string, tag: string,
                    removeUnderline: bool, tabulate: Tabulate)
    requires NoMatchStartsIn(tabulate(rows, columns), TITLE_SLOT)
    ensures TitledTable(rows, columns, title, tag, removeUnderline, tabulate)
            == TABLE_OPEN + TitleHeading(title, tag, removeUnderline) + TABLE_BEFORE_BODY
               + tabulate(rows, columns) + TABLE_CLOSE
  {
    WrapperLacksBracket();
    assert TITLE_SLOT[0] == '[';
    SlotFilled(TABLE_OPEN, TITLE_SLOT, TABLE_BEFORE_BODY, tabulate(rows, columns), TABLE_CLOSE,
               TitleHeading(title, tag, removeUnderline));
  }

  /** The title heading adds no `[` of its own. */
  lemma TitleHeadingLacksBracket(title: string, tag: string, removeUnderline: bool)
    requires '[' !in title && '[' !in tag
    ensures '[' !in TitleHeading(title, tag, removeUnderline)
  {
    assert '[' !in " " + "class=\"no-underline-heading\"";
  }

  /** The wrapper ends with eight spaces. */
  lemma WrapperTail(x: string)
    ensures |x + TABLE_CLOSE| >= 8 && '<' !in (x + TABLE_CLOSE)[|x + TABLE_CLOSE| - 8..]
  {
    var t := x + TABLE_CLOSE;
    assert t[|t| - 8..] == TABLE_CLOSE[|TABLE_CLOSE| - 8..];
    assert TABLE_CLOSE[|TABLE_CLOSE| - 8..] == "        ";
  }

  /** The highlight as written never fires when no `[` is in the rendered rows,
      the title or the tag: the pattern holds the `[` that opens the list's
      `str()`, and nothing in the table does. */
  lemma HighlightAsWrittenNeverFires(rows: seq<seq<string>>, columns: seq<string>, title: string,
                                     tag: string, removeUnderline: bool, tabulate: Tabulate)
    requires |rows| > 0 && '[' !in tabulate(rows, columns) && '[' !in title && '[' !in tag
    ensures CreateHtmlTableAsWritten(rows, columns, title, true, tag, removeUnderline, tabulate)
            == CreateHtmlTableAsWritten(rows, columns, title, false, tag, removeUnderline, tabulate)
  {
    var body := tabulate(rows, columns);
    var heading := TitleHeading(title, tag, removeUnderline);
    assert TITLE_SLOT[0] == '[';
    NoMatchWithoutFirstChar(body, TITLE_SLOT);
    TableLayout(rows, columns, title, tag, removeUnderline, tabulate);
    WrapperLacksBracket();
    TitleHeadingLacksBracket(title, tag, removeUnderline);
    var front := TABLE_OPEN + heading + TABLE_BEFORE_BODY + body;
    var titled := front + TABLE_CLOSE;
    assert '[' !in titled;
    WrapperTail(front);
    var pat := ROW_OPEN + ListRepr(rows[|rows| - 1]);
    assert pat[8] == '[' && pat[0] == '<';
    NoMatchByTail(titled, pat, 8);
    ReplaceAllNoMatch(titled, pat, BOLD_ROW_OPEN + ListRepr(rows[|rows| - 1]));
  }

  /** With the intended highlight, a table in which the row opening with the last
      row's first cell occurs holds that row with the bold class. */
  lemma HighlightFires(rows: seq<seq<string>>, columns: seq<string>, title: string,
                       tag: string, removeUnderline: bool, tabulate: Tabulate)
    requires |rows| > 0 && |rows[|rows| - 1]| > 0
    requires Contains(TitledTable(rows, columns, title, tag, removeUnderline, tabulate), ROW_OPEN + rows[|rows| - 1][0])
    ensures CreateHtmlTable(rows, columns, title, true, tag, removeUnderline, tabulate).Ok?
    ensures Contains(CreateHtmlTable(rows, columns, title, true, tag, removeUnderline, tabulate).value,
                     BOLD_ROW_OPEN + rows[|rows| - 1][0])
  {
    var cell := rows[|rows| - 1][0];
    ReplaceAllIntroduces(TitledTable(rows, columns, title, tag, removeUnderline, tabulate),
                         ROW_OPEN + cell, BOLD_ROW_OPEN + cell);
  }

  // ---------------------------------------------------------------------------
  // clean_row
  // ---------------------------------------------------------------------------

  /** Python's `text[9:]`. */
  function DropNine(t: string): (r: string)
    ensures |t| >= 9 ==> t == t[..9] + r
    ensures |t| < 9 ==> r == ""
  {
    if |t| >= 9 then t[9..] else ""
  }

  /** `clean_row`: `_bold`, `[[` and `]]` deleted, in that order, then the first
      nine characters dropped. */
  function CleanRow(text: string): string
  {
    DropNine(ReplaceAll(ReplaceAll(ReplaceAll(text, "_bold", ""), "[[", ""), "]]", ""))
  }

  /** The fixed pieces of an information key. */
  lemma KeyPieces()
    ensures 'b' !in "[[" && 'b' !in "protocol_" && '[' !in "protocol_" && ']' !in "protocol_"
    ensures |"protocol_"| == 9 && "_bold"[0] == '_' && "_bold"[1] == 'b'
  {
  }

  /** The first step of `clean_row` on an information key: the `_bold` goes. */
  lemma {:induction false} CleanBold(field: string)
    requires |field| > 0 && field[|field| - 1] != '_' && 'b' !in field
    ensures ReplaceAll(InformationKey(field), "_bold", "") == "[[" + "protocol_" + field + "]]"
  {
    var x := "[[" + "protocol_" + field;
    KeyPieces();
    assert x[|x| - 1..] == [field[|field| - 1]];
    NoMatchByTail(x, "_bold", 1);
    Assoc3(x, "_bold", "]]");
    ReplaceAllSkipPiece(x, "_bold" + "]]", "_bold", "");
    ReplaceAllAtFront("]]", "_bold", "");
  }

  /** The last steps of `clean_row` on `[[protocol_<field>]]`. */
  lemma {:induction false} CleanBrackets(field: string)
    requires '[' !in field && ']' !in field
    ensures DropNine(ReplaceAll(ReplaceAll("[[" + "protocol_" + field + "]]", "[[", ""), "]]", "")) == field
  {
    var p := "protocol_";
    var t := p + field;
    KeyPieces();
    assert "[[" + p + field + "]]" == "[[" + (t + "]]");
    ReplaceAllAtFront(t + "]]", "[[", "");
    assert '[' !in t + "]]";
    NoMatchWithoutFirstChar(t + "]]", "[[");
    ReplaceAllNoMatch(t + "]]", "[[", "");
    assert ReplaceAll("[[" + p + field + "]]", "[[", "") == t + "]]";
    ReplaceAllSkipPrefix(t, "]]", "]]", "");
    assert "]]" + "" == "]]";
    ReplaceAllAtFront("", "]]", "");
    assert ReplaceAll("", "]]", "") == "";
    assert ReplaceAll(t + "]]", "]]", "") == t;
    assert t[9..] == field;
  }

  /** `clean_row` turns `[[protocol_<field>_bold]]` into `<field>`. */
  lemma CleanRowOfKey(field: string)
    requires |field| > 0 && field[|field| - 1] != '_'
    requires 'b' !in field && '[' !in field && ']' !in field
    ensures CleanRow(InformationKey(field)) == field
  {
    CleanBold(field);
    CleanBrackets(field);
  }

  /** A config field `clean_row` recovers from its information key. */
  predicate PlainField(field: string)
  {
    |field| > 0 && field[|field| - 1] != '_' && 'b' !in field && '[' !in field && ']' !in field
  }

  lemma KeysClean(fields: seq<string>)
    requires forall i :: 0 <= i < |fields| ==> PlainField(fields[i])
    ensures forall i :: 0 <= i < |fields| ==> CleanRow(InformationKey(fields[i])) == fields[i]
  {
    forall i | 0 <= i < |fields|
      ensures CleanRow(InformationKey(fields[i])) == fields[i]
    {
      CleanRowOfKey(fields[i]);
    }
  }

  /** The five information keys clean to the config fields `protocol_name`,
      `repository`, `date`, `type` and `sloc`. */
  lemma InformationKeysClean()
    ensures |INFORMATION_TABLE_VARIABLES| == |INFORMATION_FIELDS|
    ensures forall i :: 0 <= i < |INFORMATION_FIELDS| ==>
              CleanRow(INFORMATION_TABLE_VARIABLES[i].0) == INFORMATION_FIELDS[i]
  {
    InformationFieldsPlain();
    KeysClean(INFORMATION_FIELDS);
  }

  lemma InformationFieldsPlain()
    ensures forall i :: 0 <= i < |INFORMATION_FIELDS| ==> PlainField(INFORMATION_FIELDS[i])
  {
    assert PlainField("protocol_name") && PlainField("repository") && PlainField("date");
    assert PlainField("type") && PlainField("sloc");
  }

  // ---------------------------------------------------------------------------
  // create_severity_classification_table
  // ---------------------------------------------------------------------------

  /** `create_severity_classification_table`: the fixed likelihood-by-impact
      rows under the impact columns, with no highlight. */
  function CreateSeverityClassificationTable(name: string, tabulate: Tabulate): string
  {
    CreateHtmlTable(SEVERITY_CLASSIFICATION_TABLE_ROWS, SEVERITY_CLASSIFICATION_TABLE_COLUMNS,
                    name, false, "h3", true, tabulate).value
  }

  /** The severity classification table is the wrapper around the rendered
      fixed rows, under the given name. */
  lemma SeverityClassificationLayout(name: string, tabulate: Tabulate)
    requires NoMatchStartsIn(tabulate(SEVERITY_CLASSIFICATION_TABLE_ROWS, SEVERITY_CLASSIFICATION_TABLE_COLUMNS), TITLE_SLOT)
    ensures CreateSeverityClassificationTable(name, tabulate)
            == TABLE_OPEN + TitleHeading(name, "h3", true) + TABLE_BEFORE_BODY
               + tabulate(SEVERITY_CLASSIFICATION_TABLE_ROWS, SEVERITY_CLASSIFICATION_TABLE_COLUMNS) + TABLE_CLOSE
  {
    TableLayout(SEVERITY_CLASSIFICATION_TABLE_ROWS, SEVERITY_CLASSIFICATION_TABLE_COLUMNS, name, "h3", true, tabulate);
  }

  // ---------------------------------------------------------------------------
  // create_findings_count_table
  // ---------------------------------------------------------------------------

  /** The severities with a non-zero amount, in the key order of the amounts
      dictionary (ascending severity), among the first `k` severities. */
  function CountedSeverities(amounts: map<Severity, int>, k: nat): seq<Severity>
    requires k <= |AllSeverities|
  {
    if k == 0 then []
    else
      var s := AllSeverities[k - 1];
      CountedSeverities(amounts, k - 1) + (if s in amounts && amounts[s] != 0 then [s] else [])
  }

  /** A severity is counted exactly when it has a non-zero amount, and the
      counted severities ascend strictly. */
  lemma {:induction false} CountedSeveritiesSpec(amounts: map<Severity, int>, k: nat)
    requires k <= |AllSeverities|
    ensures forall s :: s in CountedSeverities(amounts, k) <==> Rank(s) <= k && s in amounts && amounts[s] != 0
    ensures forall i, j :: 0 <= i < j < |CountedSeverities(amounts, k)| ==>
              Rank(CountedSeverities(amounts, k)[i]) < Rank(CountedSeverities(amounts, k)[j])
    ensures forall i :: 0 <= i < |CountedSeverities(amounts, k)| ==> Rank(CountedSeverities(amounts, k)[i]) <= k
  {
    if k > 0 {
      CountedSeveritiesSpec(amounts, k - 1);
      var s := AllSeverities[k - 1];
      assert Rank(s) == k;
      forall t ensures Rank(t) == k ==> t == s {
        assert AllSeverities[Rank(t) - 1] == t;
      }
    }
  }

  /** One row of the count table: the display name and the amount. */
  function CountRow(amounts: map<Severity, int>, s: Severity): seq<string>
    requires s in amounts
  {
    [DisplayCase(s), IntToString(amounts[s])]
  }

  /** The last row of the count table, filled in after rendering. */
  const TOTAL_ROW: seq<string> := ["{{total_findings}}", "{{total_findings_amount}}"]

  /** `list.reverse()`. */
  function Reversed<T>(xs: seq<T>): (r: seq<T>)
    ensures |r| == |xs| && forall i :: 0 <= i < |xs| ==> r[i] == xs[|xs| - 1 - i]
  {
    if |xs| == 0 then [] else Reversed(xs[1..]) + [xs[0]]
  }

  /** The severities of the count table, highest first. */
  function CountTableSeverities(amounts: map<Severity, int>): seq<Severity>
  {
    Reversed(CountedSeverities(amounts, |AllSeverities|))
  }

  /** The rows of the count table: one per counted severity, highest first, then
      the total row. */
  function CountTableRows(amounts: map<Severity, int>): (r: seq<seq<string>>)
  {
    var ss := CountTableSeverities(amounts);
    seq(|ss|, i requires 0 <= i < |ss| => if ss[i] in amounts then CountRow(amounts, ss[i]) else []) + [TOTAL_ROW]
  }

  /** Reversing keeps the members. */
  lemma ReversedMembers<T>(xs: seq<T>)
    ensures forall x :: x in Reversed(xs) <==> x in xs
  {
    forall x | x in xs ensures x in Reversed(xs) {
      var i :| 0 <= i < |xs| && xs[i] == x;
      assert Reversed(xs)[|xs| - 1 - i] == x;
    }
  }

  /** Reversing an ascending sequence of severities makes it descending. */
  lemma ReversedDescends(cs: seq<Severity>)
    requires forall i, j :: 0 <= i < j < |cs| ==> Rank(cs[i]) < Rank(cs[j])
    ensures forall i, j :: 0 <= i < j < |Reversed(cs)| ==> Rank(Reversed(cs)[i]) > Rank(Reversed(cs)[j])
  {
    var ss := Reversed(cs);
    forall i, j | 0 <= i < j < |ss| ensures Rank(ss[i]) > Rank(ss[j]) {
      assert ss[i] == cs[|cs| - 1 - i] && ss[j] == cs[|cs| - 1 - j];
    }
  }

  /** The count table's severities: every severity with a non-zero amount and
      no other, highest first. */
  lemma CountTableSeveritiesSpec(amounts: map<Severity, int>)
    ensures var ss := CountTableSeverities(amounts);
            && (forall s :: s in ss <==> s in amounts && amounts[s] != 0)
            && (forall i, j :: 0 <= i < j < |ss| ==> Rank(ss[i]) > Rank(ss[j]))
  {
    var cs := CountedSeverities(amounts, |AllSeverities|);
    CountedSeveritiesSpec(amounts, |AllSeverities|);
    ReversedMembers(cs);
    ReversedDescends(cs);
  }

  /** The count table has one row per counted severity, in that order, each
      with its amount, and ends with the total row. */
  lemma CountTableRowsSpec(amounts: map<Severity, int>)
    ensures var ss := CountTableSeverities(amounts);
            var r := CountTableRows(amounts);
            && |r| == |ss| + 1 && r[|ss|] == TOTAL_ROW
            && (forall i :: 0 <= i < |ss| ==> ss[i] in amounts && r[i] == CountRow(amounts, ss[i]))
  {
    CountTableSeveritiesSpec(amounts);
    var ss := CountTableSeverities(amounts);
    forall i | 0 <= i < |ss| ensures ss[i] in amounts {
      assert ss[i] in ss;
    }
  }

  /** The total row filled in: bold label and bold amount. */
  function FillTotals(table: string, total: int): string
  {
    ReplaceAll(ReplaceAll(table, "{{total_findings}}", "<b>Total Findings</b>"),
               "{{total_findings_amount}}", "<b>" + IntToString(total) + "</b>")
  }

  /** `create_findings_count_table`: the counted severities highest first, the
      total row last, the table built with the highlight as written, and the
      two total placeholders filled. */
  method CreateFindingsCountTable(amounts: map<Severity, int>, total: int, name: string, tabulate: Tabulate)
    returns (table: string)
    ensures CreateHtmlTableAsWritten(CountTableRows(amounts), FINDING_COUNT_TABLE_COLUMNS, name, true, "h3", true,
                                     tabulate).Ok?
    ensures table == FillTotals(CreateHtmlTableAsWritten(CountTableRows(amounts), FINDING_COUNT_TABLE_COLUMNS,
                                                         name, true, "h3", true, tabulate).value, total)
  {
    var findingCounts: seq<seq<string>> := [];
    var counted: seq<Severity> := [];
    for k := 0 to |AllSeverities|
      invariant counted == CountedSeverities(amounts, k)
      invariant |findingCounts| == |counted|
      invariant forall i :: 0 <= i < |counted| ==> counted[i] in amounts && findingCounts[i] == CountRow(amounts, counted[i])
    {
      var severity := AllSeverities[k];
      if severity in amounts {
        var amount := amounts[severity];
        if amount != 0 {
          findingCounts := findingCounts + [[DisplayCase(severity), IntToString(amount)]];
          counted := counted + [severity];
        }
      }
    }
    findingCounts := Reversed(findingCounts);
    findingCounts := findingCounts + [TOTAL_ROW];
    assert findingCounts == CountTableRows(amounts);
    var rendered := CreateHtmlTableAsWritten(findingCounts, FINDING_COUNT_TABLE_COLUMNS, name, true, "h3", true,
                                             tabulate);
    table := FillTotals(rendered.value, total);
  }

  /** The count table never gets its total row highlighted: when neither the
      rendered rows nor the title hold a `[`, it is the plain titled table with
      the totals filled in. */
  lemma CountTableUnhighlighted(amounts: map<Severity, int>, name: string, tabulate: Tabulate)
    requires '[' !in tabulate(CountTableRows(amounts), FINDING_COUNT_TABLE_COLUMNS) && '[' !in name
    ensures CreateHtmlTableAsWritten(CountTableRows(amounts), FINDING_COUNT_TABLE_COLUMNS, name, true, "h3", true,
                                     tabulate)
            == Ok(TitledTable(CountTableRows(amounts), FINDING_COUNT_TABLE_COLUMNS, name, "h3", true, tabulate))
  {
    HighlightAsWrittenNeverFires(CountTableRows(amounts), FINDING_COUNT_TABLE_COLUMNS, name, "h3", true, tabulate);
  }

  // ---------------------------------------------------------------------------
  // create_findings_summary_table
  // ---------------------------------------------------------------------------

  /** `finding_to_table_row`: the bracketed identifier, the title without
      backticks, the severity's display name and the status. */
  function FindingToTableRow(f: Finding): (r: seq<string>)
    ensures |r| == |FINDING_LIST_TABLE_COLUMNS|
    ensures r[1] == DeleteChar(f.title, '`') && '`' !in r[1]
    ensures Upper(r[2]) == Name(f.severity) && r[3] == StatusText(f.status)
  {
    ReplaceAllIsDeleteChar(f.title, '`');
    ["[" + f.id + "]", ReplaceAll(f.title, "`", ""), DisplayCase(f.severity), StatusText(f.status)]
  }

  /** The rows of the summary table, one per finding, in order. */
  function FindingRows(findings: seq<Finding>): (r: seq<seq<string>>)
    ensures |r| == |findings| && forall i :: 0 <= i < |findings| ==> r[i] == FindingToTableRow(findings[i])
  {
    seq(|findings|, i requires 0 <= i < |findings| => FindingToTableRow(findings[i]))
  }

  /** The anchor a summary link points at: section 8, the severity's index, the
      finding's number. */
  function SummaryAnchor(severityIndex: int, idNum: int): string
  {
    "section-8-" + IntToString(severityIndex) + "-" + IntToString(idNum)
  }

  /** The link a summary row's identifier becomes: to the finding's anchor under
      its severity's subsection of section 8. */
  function SummaryLink(severityIndex: int, f: Finding): string
  {
    "<a href=\"#" + SummaryAnchor(severityIndex, f.idNum) + "\">[" + f.id + "]</a>"
  }

  /** The summary table after the first `n` findings' identifiers became the
      links `link` makes (in the report, `SummaryLink`); a finding whose
      severity has no index raises `KeyError`. */
  function LinkFindings(table: string, findings: seq<Finding>, severityToIndex: map<Severity, nat>,
                        link: (int, Finding) -> string, n: nat): Result<string>
    requires n <= |findings|
  {
    if n == 0 then Ok(table)
    else
      match LinkFindings(table, findings, severityToIndex, link, n - 1)
      case Err(e) => Err(e)
      case Ok(t) =>
        var f := findings[n - 1];
        if f.severity !in severityToIndex then Err(Raise(KeyError(Name(f.severity))))
        else Ok(ReplaceAll(t, "[" + f.id + "]", link(severityToIndex[f.severity], f)))
  }

  /** Every one of the first `n` findings has a severity with an index. */
  predicate AllIndexed(findings: seq<Finding>, severityToIndex: map<Severity, nat>, n: nat)
    requires n <= |findings|
  {
    forall i :: 0 <= i < n ==> findings[i].severity in severityToIndex
  }

  /** Linking fails exactly when some finding's severity has no index. */
  lemma {:induction false} LinkFindingsFails(table: string, findings: seq<Finding>, severityToIndex: map<Severity, nat>,
                                             link: (int, Finding) -> string, n: nat)
    requires n <= |findings|
    ensures LinkFindings(table, findings, severityToIndex, link, n).Err? <==> !AllIndexed(findings, severityToIndex, n)
  {
    if n > 0 {
      LinkFindingsFails(table, findings, severityToIndex, link, n - 1);
    }
  }

  /** The error is the `KeyError` of the first finding whose severity has no index. */
  lemma {:induction false} LinkFindingsError(table: string, findings: seq<Finding>, severityToIndex: map<Severity, nat>,
                                             link: (int, Finding) -> string, n: nat)
    requires n <= |findings| && LinkFindings(table, findings, severityToIndex, link, n).Err?
    ensures exists i :: 0 <= i < n && AllIndexed(findings, severityToIndex, i)
                        && findings[i].severity !in severityToIndex
                        && LinkFindings(table, findings, severityToIndex, link, n).error
                           == Raise(KeyError(Name(findings[i].severity)))
  {
    if LinkFindings(table, findings, severityToIndex, link, n - 1).Err? {
      LinkFindingsError(table, findings, severityToIndex, link, n - 1);
    } else {
      LinkFindingsFails(table, findings, severityToIndex, link, n - 1);
      assert AllIndexed(findings, severityToIndex, n - 1);
    }
  }

  /** The identifier of the last linked finding, when the table holds it, is a
      link in the result. */
  lemma LinkFindingsLinksLast(table: string, findings: seq<Finding>, severityToIndex: map<Severity, nat>,
                              link: (int, Finding) -> string, n: nat)
    requires 0 < n <= |findings|
    requires LinkFindings(table, findings, severityToIndex, link, n).Ok?
    requires Contains(LinkFindings(table, findings, severityToIndex, link, n - 1).value, "[" + findings[n - 1].id + "]")
    ensures findings[n - 1].severity in severityToIndex
    ensures Contains(LinkFindings(table, findings, severityToIndex, link, n).value,
                     link(severityToIndex[findings[n - 1].severity], findings[n - 1]))
  {
    var f := findings[n - 1];
    ReplaceAllIntroduces(LinkFindings(table, findings, severityToIndex, link, n - 1).value, "[" + f.id + "]",
                         link(severityToIndex[f.severity], f));
  }

  /** Once linking has failed it stays failed with the same error. */
  lemma {:induction false} LinkAfterFailure(table: string, findings: seq<Finding>, severityToIndex: map<Severity, nat>,
                                            link: (int, Finding) -> string, n: nat)
    requires 0 < n <= |findings| && LinkFindings(table, findings, severityToIndex, link, n).Err?
    ensures LinkFindings(table, findings, severityToIndex, link, |findings|)
            == LinkFindings(table, findings, severityToIndex, link, n)
    decreases |findings| - n
  {
    if n < |findings| {
      LinkAfterFailure(table, findings, severityToIndex, link, n + 1);
    }
  }

  /** The loop of `create_findings_summary_table`: each finding's bracketed
      identifier in turn replaced by its link. */
  method LinkSummaryIdentifiers(table: string, findings: seq<Finding>, severityToIndex: map<Severity, nat>,
                                link: (int, Finding) -> string) returns (r: Result<string>)
    ensures r == LinkFindings(table, findings, severityToIndex, link, |findings|)
  {
    var linked := table;
    for i := 0 to |findings|
      invariant LinkFindings(table, findings, severityToIndex, link, i) == Ok(linked)
    {
      var finding := findings[i];
      if finding.severity !in severityToIndex {
        r := Err(Raise(KeyError(Name(finding.severity))));
        LinkAfterFailure(table, findings, severityToIndex, link, i + 1);
        return;
      }
      var severityIndex := severityToIndex[finding.severity];
      linked := ReplaceAll(linked, "[" + finding.id + "]", link(severityIndex, finding));
    }
    r := Ok(linked);
  }

  /** `create_findings_summary_table`: one row per finding, then each finding's
      bracketed identifier turned into a link to its anchor; a finding whose
      severity has no index raises `KeyError`. */
  method CreateFindingsSummaryTable(findings: seq<Finding>, severityToIndex: map<Severity, nat>, name: string,
                                    tabulate: Tabulate) returns (r: Result<string>)
    ensures r == LinkFindings(TitledTable(FindingRows(findings), FINDING_LIST_TABLE_COLUMNS, name, "h3", true, tabulate),
                              findings, severityToIndex, SummaryLink, |findings|)
    ensures r.Err? <==> !AllIndexed(findings, severityToIndex, |findings|)
  {
    var rendered := CreateHtmlTable(FindingRows(findings), FINDING_LIST_TABLE_COLUMNS, name, false, "h3", true, tabulate);
    r := LinkSummaryIdentifiers(rendered.value, findings, severityToIndex, SummaryLink);
    LinkFindingsFails(rendered.value, findings, severityToIndex, SummaryLink, |findings|);
  }

  // ---------------------------------------------------------------------------
  // create_information_table
  // ---------------------------------------------------------------------------

  /** Placeholder keys the information table can work with: none is empty. */
  predicate KeysNonEmpty(variables: seq<(string, string)>)
  {
    forall i :: 0 <= i < |variables| ==> |variables[i].0| > 0
  }

  /** The rows of the information table from the first `n` placeholders: the
      pair `[key, key + "_VALUE"]` for each whose cleaned config field is not
      `-`; a cleaned field missing from the config raises `KeyError`. */
  function InformationRows(config: map<string, string>, variables: seq<(string, string)>, n: nat)
    : Result<seq<seq<string>>>
    requires n <= |variables|
  {
    if n == 0 then Ok([])
    else
      match InformationRows(config, variables, n - 1)
      case Err(e) => Err(e)
      case Ok(rows) =>
        var key := variables[n - 1].0;
        var field := CleanRow(key);
        if field !in config then Err(Raise(KeyError(field)))
        else if config[field] == "-" then Ok(rows)
        else Ok(rows + [[key, key + "_VALUE"]])
  }

  /** The cleaned field of each of the first `n` placeholders is configured. */
  predicate FieldsPresent(config: map<string, string>, variables: seq<(string, string)>, n: nat)
    requires n <= |variables|
  {
    forall i :: 0 <= i < n ==> CleanRow(variables[i].0) in config
  }

  /** Building the rows fails exactly when a cleaned field is not configured. */
  lemma {:induction false} InformationRowsFail(config: map<string, string>, variables: seq<(string, string)>, n: nat)
    requires n <= |variables|
    ensures InformationRows(config, variables, n).Err? <==> !FieldsPresent(config, variables, n)
  {
    if n > 0 {
      InformationRowsFail(config, variables, n - 1);
    }
  }

  /** A placeholder has a row exactly when its field's value is not `-`. */
  lemma {:induction false} InformationRowsKeep(config: map<string, string>, variables: seq<(string, string)>, n: nat)
    requires n <= |variables| && FieldsPresent(config, variables, n)
    ensures InformationRows(config, variables, n).Ok?
    ensures forall i :: 0 <= i < n ==>
              ([variables[i].0, variables[i].0 + "_VALUE"] in InformationRows(config, variables, n).value
               <==> config[CleanRow(variables[i].0)] != "-")
    ensures forall row :: row in InformationRows(config, variables, n).value ==>
              exists i :: 0 <= i < n && row == [variables[i].0, variables[i].0 + "_VALUE"]
  {
    InformationRowsFail(config, variables, n);
    if n > 0 {
      InformationRowsKeep(config, variables, n - 1);
      var prev := InformationRows(config, variables, n - 1).value;
      var key := variables[n - 1].0;
      var rows := InformationRows(config, variables, n).value;
      forall i | 0 <= i < n
        ensures [variables[i].0, variables[i].0 + "_VALUE"] in rows <==> config[CleanRow(variables[i].0)] != "-"
      {
        var ki := variables[i].0;
        var ri := [ki, ki + "_VALUE"];
        if ri in rows && ri !in prev {
          assert ri == [key, key + "_VALUE"];
          assert ri[0] == ki && ri[0] == key;
        }
        if i == n - 1 && ri in prev {
          var j :| 0 <= j < n - 1 && ri == [variables[j].0, variables[j].0 + "_VALUE"];
          assert ri[0] == variables[j].0;
        }
      }
    }
  }

  /** The HTML of a configured value: its Markdown rendering, with every `<p>`
      and `</p>` deleted when the rendering starts with a paragraph. */
  function InformationValue(render: string -> string, text: string): string
  {
    var value := CreateHtmlFromMarkdown(render, text, false);
    if StartsWith(value, "<p>") then ReplaceAll(ReplaceAll(value, "<p>", ""), "</p>", "") else value
  }

  /** Deleting `<p>` leaves the closing tag and newline alone. */
  lemma OpenTagNotInClose()
    ensures ReplaceAll("</p>\n", "<p>", "") == "</p>\n"
  {
    var close := "</p>\n";
    assert close[1] != "<p>"[1];
    assert close[..3] != "<p>";
    NoMatchWithoutFirstChar(close[1..], "<p>");
    ReplaceAllNoMatch(close[1..], "<p>", "");
    assert close == [close[0]] + close[1..];
  }

  /** Deleting `</p>` from the closing tag and newline leaves the newline. */
  lemma CloseTagDeleted()
    ensures ReplaceAll("</p>\n", "</p>", "") == "\n"
  {
    assert "</p>\n" == "</p>" + "\n";
    ReplaceAllAtFront("\n", "</p>", "");
  }

  /** A value rendered as one paragraph of plain text loses its paragraph tags. */
  lemma OneParagraphValue(render: string -> string, text: string, t: string)
    requires render(text) == "<p>" + t + "</p>\n" && '<' !in t
    ensures InformationValue(render, text) == t + "\n"
  {
    var close := "</p>\n";
    var v := render(text);
    assert v == "<p>" + (t + close);
    assert StartsWith(v, "<p>");
    ReplaceAllAtFront(t + close, "<p>", "");
    ReplaceAllSkipPrefix(t, close, "<p>", "");
    OpenTagNotInClose();
    assert ReplaceAll(v, "<p>", "") == t + close;
    ReplaceAllSkipPrefix(t, close, "</p>", "");
    CloseTagDeleted();
  }

  /** The heading a placeholder key becomes: its label inside `<tag>`. */
  function RowHeading(caption: string, tag: string): string
  {
    "<" + tag + ">" + caption + "</" + tag + ">"
  }

  /** The table after the first `n` placeholders were filled: first the value
      placeholder `key + "_VALUE"` with the value's HTML, then the key itself
      with its heading. */
  function FillInformation(table: string, config: map<string, string>, render: string -> string, tag: string,
                           variables: seq<(string, string)>, n: nat): string
    requires n <= |variables| && KeysNonEmpty(variables) && FieldsPresent(config, variables, n)
  {
    if n == 0 then table
    else
      var t := FillInformation(table, config, render, tag, variables, n - 1);
      var key := variables[n - 1].0;
      var value := InformationValue(render, config[CleanRow(key)]);
      ReplaceAll(ReplaceAll(t, key + "_VALUE", value), key, RowHeading(variables[n - 1].1, tag))
  }

  /** A table holding none of the keys' first characters, and values and
      headings that bring none in, comes out unchanged. */
  lemma {:induction false} FillInformationUntouched(table: string, config: map<string, string>, render: string -> string,
                                                    tag: string, variables: seq<(string, string)>, n: nat, c: char)
    requires n <= |variables| && KeysNonEmpty(variables) && FieldsPresent(config, variables, n)
    requires c !in table && forall i :: 0 <= i < |variables| ==> variables[i].0[0] == c
    ensures FillInformation(table, config, render, tag, variables, n) == table
  {
    if n > 0 {
      FillInformationUntouched(table, config, render, tag, variables, n - 1, c);
      var key := variables[n - 1].0;
      NoMatchWithoutFirstChar(table, key + "_VALUE");
      ReplaceAllNoMatch(table, key + "_VALUE", InformationValue(render, config[CleanRow(key)]));
      NoMatchWithoutFirstChar(table, key);
      ReplaceAllNoMatch(table, key, RowHeading(variables[n - 1].1, tag));
    }
  }

  /** The first loop of `create_information_table`: the rows for the
      placeholders `variables` whose fields are configured and not `-`. */
  method CollectInformationRows(config: map<string, string>, variables: seq<(string, string)>)
    returns (r: Result<seq<seq<string>>>)
    ensures r == InformationRows(config, variables, |variables|)
    ensures r.Err? <==> !FieldsPresent(config, variables, |variables|)
  {
    var rows: seq<seq<string>> := [];
    for k := 0 to |variables|
      invariant InformationRows(config, variables, k) == Ok(rows)
    {
      var row := variables[k].0;
      var field := CleanRow(row);
      if field !in config {
        r := Err(Raise(KeyError(field)));
        InformationRowsAfterFailure(config, variables, k + 1);
        InformationRowsFail(config, variables, |variables|);
        return;
      }
      if config[field] != "-" {
        rows := rows + [[row, row + "_VALUE"]];
      }
    }
    r := Ok(rows);
    InformationRowsFail(config, variables, |variables|);
  }

  /** The second loop of `create_information_table`: each placeholder's value
      and heading filled in. */
  method FillInformationTable(table: string, config: map<string, string>, render: string -> string, tag: string,
                              variables: seq<(string, string)>) returns (filled: string)
    requires KeysNonEmpty(variables) && FieldsPresent(config, variables, |variables|)
    ensures filled == FillInformation(table, config, render, tag, variables, |variables|)
  {
    filled := table;
    for k := 0 to |variables|
      invariant filled == FillInformation(table, config, render, tag, variables, k)
    {
      var key := variables[k].0;
      var value := CreateHtmlFromMarkdown(render, config[CleanRow(key)], false);
      if StartsWith(value, "<p>") {
        value := ReplaceAll(ReplaceAll(value, "<p>", ""), "</p>", "");
      }
      filled := ReplaceAll(filled, key + "_VALUE", value);
      filled := ReplaceAll(filled, key, RowHeading(variables[k].1, tag));
    }
  }

  /** What `create_information_table` over the placeholders `variables`
      produces: a `KeyError` exactly when a cleaned field is not configured
      (the one the row loop meets first), and otherwise the rows for the
      configured fields rendered under `name`, with each placeholder filled. */
  predicate IsInformationTable(config: map<string, string>, variables: seq<(string, string)>, render: string -> string,
                               name: string, tag: string, tabulate: Tabulate, r: Result<string>)
    requires KeysNonEmpty(variables)
  {
    var rows := InformationRows(config, variables, |variables|);
    && (r.Err? <==> !FieldsPresent(config, variables, |variables|))
    && (r.Err? ==> rows.Err? && r.error == rows.error)
    && (r.Ok? ==> FieldsPresent(config, variables, |variables|) && rows.Ok?
                  && r.value == FillInformation(TitledTable(rows.value, [], name, "h3", true, tabulate),
                                                config, render, tag, variables, |variables|))
  }

  /** `create_information_table` over the placeholders `variables` (in the
      report, `INFORMATION_TABLE_VARIABLES`). */
  method InformationTable(config: map<string, string>, variables: seq<(string, string)>, render: string -> string,
                          name: string, tag: string, tabulate: Tabulate) returns (r: Result<string>)
    requires KeysNonEmpty(variables)
    ensures IsInformationTable(config, variables, render, name, tag, tabulate, r)
  {
    var rows := CollectInformationRows(config, variables);
    if rows.Err? {
      return Err(rows.error);
    }
    var table := CreateHtmlTable(rows.value, [], name, false, "h3", true, tabulate).value;
    var filled := FillInformationTable(table, config, render, tag, variables);
    r := Ok(filled);
  }

  /** Once building the rows has failed it stays failed with the same error. */
  lemma {:induction false} InformationRowsAfterFailure(config: map<string, string>, variables: seq<(string, string)>, n: nat)
    requires 0 < n <= |variables| && InformationRows(config, variables, n).Err?
    ensures InformationRows(config, variables, |variables|) == InformationRows(config, variables, n)
    decreases |variables| - n
  {
    if n < |variables| {
      InformationRowsAfterFailure(config, variables, n + 1);
    }
  }

  /** What `create_information_table` produces, as a value: the first missing
      field's `KeyError`, or the filled table. */
  function InformationTableOf(config: map<string, string>, variables: seq<(string, string)>, render: string -> string,
                              name: string, tag: string, tabulate: Tabulate): (r: Result<string>)
    requires KeysNonEmpty(variables)
    ensures IsInformationTable(config, variables, render, name, tag, tabulate, r)
  {
    InformationRowsFail(config, variables, |variables|);
    var rows := InformationRows(config, variables, |variables|);
    if rows.Err? then Err(rows.error)
    else Ok(FillInformation(TitledTable(rows.value, [], name, "h3", true, tabulate), config, render, tag, variables, |variables|))
  }

  /** `create_information_table` has one outcome for each input. */
  lemma InformationTableUnique(config: map<string, string>, variables: seq<(string, string)>, render: string -> string,
                               name: string, tag: string, tabulate: Tabulate, r: Result<string>)
    requires KeysNonEmpty(variables) && IsInformationTable(config, variables, render, name, tag, tabulate, r)
    ensures r == InformationTableOf(config, variables, render, name, tag, tabulate)
  {
    InformationRowsFail(config, variables, |variables|);
  }

  /** Every information placeholder is a non-empty key. */
  lemma InformationKeysNonEmpty()
    ensures KeysNonEmpty(INFORMATION_TABLE_VARIABLES)
  {
  }

  /** `create_information_table` with the report's placeholders. */
  method CreateInformationTable(config: map<string, string>, render: string -> string, name: string, tag: string,
                                tabulate: Tabulate) returns (r: Result<string>)
    ensures KeysNonEmpty(INFORMATION_TABLE_VARIABLES)
    ensures IsInformationTable(config, INFORMATION_TABLE_VARIABLES, render, name, tag, tabulate, r)
  {
    InformationKeysNonEmpty();
    r := InformationTable(config, INFORMATION_TABLE_VARIABLES, render, name, tag, tabulate);
  }

  // ---------------------------------------------------------------------------
  // tables / fragment_to_callable
  // ---------------------------------------------------------------------------

  /** The four tables a report template can ask for. */
  datatype TableKind = SeverityClassification | Information | FindingsCount | FindingsSummary

  /** `tables()`: the placeholder names of the tables. */
  const TABLES: seq<string> :=
    ["severity_classification_table", "information_table", "findings_count_table", "findings_summary_table"]

  /** `fragment_to_callable()`: each table name with the table it builds, in
      the dictionary's key order. */
  function FragmentToCallable(): (r: seq<(string, TableKind)>)
    ensures |r| == |TABLES| && forall i :: 0 <= i < |r| ==> r[i].0 == TABLES[i]
    ensures forall i, j :: 0 <= i < j < |r| ==> r[i].1 != r[j].1
  {
    [("severity_classification_table", SeverityClassification),
     ("information_table", Information),
     ("findings_count_table", FindingsCount),
     ("findings_summary_table", FindingsSummary)]
  }
}
