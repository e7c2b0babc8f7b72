/**
  How a finding file written by `add_finding_template` reads back through the
  `Finding` constructor: the identifier, its number and the severity are the
  ones the file was created with, the title is `-`, and the untouched status
  placeholder makes the finding Resolved.
*/
module TemplateRoundTrip {
  import opened Strings
  import opened Errors
  import opened Typings
  import opened Constants
  import opened EnvironmentUtils
  import opened EnvironmentSetup
  import opened FindingParser

  /** A severity signature is written in capital letters. */
  lemma SigLetters(s: Severity)
    ensures forall i :: 0 <= i < |FolderSig(s)| ==> 'A' <= FolderSig(s)[i] <= 'Z'
  {
  }

  /** Upper-casing a signature keeps it. */
  lemma UpperOfFolderSig(s: Severity)
    ensures Upper(FolderSig(s)) == FolderSig(s)
  {
    SigLetters(s);
  }

  /** Capital letters, digits and `-`: the characters of a created identifier. */
  predicate IdentifierText(t: string)
  {
    forall i :: 0 <= i < |t| ==> t[i] == '-' || 'A' <= t[i] <= 'Z' || '0' <= t[i] <= '9'
  }

  /** The identifier of a created finding is such a text. */
  lemma {:induction false} IdentifierChars(s: Severity, n: nat)
    ensures IdentifierText(FolderSig(s) + "-" + FsSigIndex(n))
  {
    SigLetters(s);
    var sig, digits := FolderSig(s), FsSigIndex(n);
    var id := sig + "-" + digits;
    forall i | 0 <= i < |id|
      ensures id[i] == '-' || 'A' <= id[i] <= 'Z' || '0' <= id[i] <= '9'
    {
      if i < |sig| {
        assert id[i] == sig[i];
      } else if i > |sig| {
        assert id[i] == digits[i - |sig| - 1];
        assert IsDigit(digits[i - |sig| - 1]);
      }
    }
  }

  /** A character outside those ranges is absent from such a text. */
  lemma IdentifierTextLacks(t: string, c: char)
    requires IdentifierText(t) && c != '-' && !('A' <= c <= 'Z') && !('0' <= c <= '9')
    ensures c !in t
  {
    forall i | 0 <= i < |t|
      ensures t[i] != c
    {
    }
  }

  /** The characters the header line of a created finding cannot hold, before
      and after the title `-` is added. */
  lemma {:induction false} HeaderLineChars(id: string)
    requires IdentifierText(id)
    ensures '\n' !in "# [" + id + "]"
    ensures '_' !in "# [" + id + "] -" && '{' !in "# [" + id + "] -"
    ensures '[' !in id && ']' !in id && forall i :: 0 <= i < |id| ==> !IsSpace(id[i])
  {
    IdentifierTextLacks(id, '\n');
    IdentifierTextLacks(id, '_');
    IdentifierTextLacks(id, '{');
    IdentifierTextLacks(id, '[');
    IdentifierTextLacks(id, ']');
    assert '\n' !in "# [" && '\n' !in "]";
    assert '_' !in "# [" && '_' !in "] -" && '{' !in "# [" && '{' !in "] -";
  }

  /** The first row of `row + rest` is `row` when `row` holds no newline and
      `rest` starts with one. */
  lemma FirstRowOf(row: string, rest: string)
    requires '\n' !in row && |rest| > 0 && rest[0] == '\n'
    ensures FirstRow(row + rest) == row
  {
    assert rest == "\n" + rest[1..];
    Assoc3(row, "\n", rest[1..]);
    FindChar(row, '\n', rest[1..]);
    SplitFirst(row + rest, "\n");
  }

  lemma OpenBracket()
    ensures "# " + "[" == "# ["
  {
  }

  lemma EmptyRight(t: string)
    ensures t + "" == t
  {
  }

  /** A signature neither starts nor ends with whitespace. */
  lemma SigEnds(s: Severity)
    ensures !IsSpace(FolderSig(s)[0]) && !IsSpace(FolderSig(s)[|FolderSig(s)| - 1])
  {
    SigLetters(s);
  }

  /** The header line `# [<sig>-<index>]` of a created finding: no title, so the
      title is `-` and the line is kept as `# [<sig>-<index>] -`. */
  lemma {:induction false} TemplateHeader(s: Severity, n: nat)
    ensures var id := FolderSig(s) + "-" + FsSigIndex(n);
            ParseHeader("# [" + id + "]") == Ok(Header("# [" + id + "] -", id, n, "-", s))
  {
    var sig, digits := FolderSig(s), FsSigIndex(n);
    var id := sig + "-" + digits;
    IdentifierChars(s, n);
    HeaderLineChars(id);
    assert '[' !in "# " && ']' !in "# ";
    HeaderOfRow("# ", id, "");
    OpenBracket();
    EmptyRight("# " + "[" + id + "]");
    StripNoSpace(id);
    SigEnds(s);
    UpperOfFolderSig(s);
    FolderSigRoundTrip(s);
    IdNumberOf(sig, digits, s);
  }

  /** The fixed lines of the template hold no `_` and no `{`. */
  lemma BodyLacksMarks()
    ensures '_' !in FINDING_TEMPLATE_BODY && '{' !in FINDING_TEMPLATE_BODY
  {
    PieceLacksMarks("\n\n## Severity\n\n");
    PieceLacksMarks("**Impact:**\n\n");
    PieceLacksMarks("**Likelihood:**\n\n");
    PieceLacksMarks("## Description\n\n");
    PieceLacksMarks("## Recommendations\n\n");
  }

  /** Text made of letters, `#`, `*`, `:`, spaces and newlines lacks both marks. */
  lemma PieceLacksMarks(p: string)
    requires forall i :: 0 <= i < |p| ==> p[i] != '_' && p[i] != '{'
    ensures '_' !in p && '{' !in p
  {
  }

  /** The fixed lines of the template start with a newline and end with two
      newlines after a letter. */
  lemma BodyEnds()
    ensures |FINDING_TEMPLATE_BODY| >= 3 && FINDING_TEMPLATE_BODY[0] == '\n'
    ensures '#' !in FINDING_TEMPLATE_BODY[|FINDING_TEMPLATE_BODY| - 3..]
  {
    var front := "\n\n## Severity\n\n" + "**Impact:**\n\n" + "**Likelihood:**\n\n" + "## Description\n\n";
    var last := "## Recommendations\n\n";
    assert last[|last| - 3..] == "s\n\n";
    assert (front + last)[|front + last| - 3..] == last[|last| - 3..];
  }

  /** The fixed lines of the template: no `_`, no `{`, and no `#` among the last
      three characters; the first is a newline. */
  lemma BodyChars()
    ensures '_' !in FINDING_TEMPLATE_BODY && '{' !in FINDING_TEMPLATE_BODY
    ensures |FINDING_TEMPLATE_BODY| >= 3
    ensures '#' !in FINDING_TEMPLATE_BODY[|FINDING_TEMPLATE_BODY| - 3..]
    ensures FINDING_TEMPLATE_BODY[0] == '\n'
  {
    BodyLacksMarks();
    BodyEnds();
  }

  /** The text before the status line of a created finding holds no start of the
      status heading and no start of the placeholder. */
  lemma StatusLineIsTheOnlyOne(x: string)
    requires '_' !in x && '{' !in x
    ensures var a := x + FINDING_TEMPLATE_BODY;
            NoMatchStartsIn(a, FINDING_RESOLUTION_STATUS_HEADING)
            && NoMatchStartsIn(a, RESOLUTION_STATUS_PLACEHOLDER)
  {
    var a := x + FINDING_TEMPLATE_BODY;
    BodyChars();
    MarkerShapeOfConstants();
    assert a[|a| - 3..] == FINDING_TEMPLATE_BODY[|FINDING_TEMPLATE_BODY| - 3..];
    assert FINDING_RESOLUTION_STATUS_HEADING[3] == '_' && FINDING_RESOLUTION_STATUS_HEADING[0] == '#';
    assert RESOLUTION_STATUS_PLACEHOLDER[0] == '{';
    NoMatchByTail(a, FINDING_RESOLUTION_STATUS_HEADING, 3);
    NoMatchWithoutFirstChar(a, RESOLUTION_STATUS_PLACEHOLDER);
  }

  /** A newline is whitespace. */
  lemma NewlineIsSpace()
    ensures AllSpace("\n")
  {
  }

  /** The instantiated template as its header line followed by the rest. */
  lemma TemplateShape(sig: string, digits: string)
    ensures var row := "# [" + (sig + "-" + digits) + "]";
            InstantiatedTemplate(sig, digits)
            == row + (FINDING_TEMPLATE_BODY + (FINDING_RESOLUTION_STATUS_HEADING + (RESOLUTION_STATUS_PLACEHOLDER + "\n")))
  {
    var open := "# [";
    Assoc3(open, sig, "-");
    Assoc3(open, sig + "-", digits);
    var row := open + (sig + "-" + digits) + "]";
    Assoc4(row, FINDING_TEMPLATE_BODY, FINDING_RESOLUTION_STATUS_SECTION, "\n");
    Assoc3(FINDING_RESOLUTION_STATUS_HEADING, RESOLUTION_STATUS_PLACEHOLDER, "\n");
  }

  /** Reading back a created finding: the file for severity `s` and number `n`
      yields the identifier `<sig>-<nn>`, the number `n`, the title `-`, the
      severity `s` and the status Resolved; its text is the template with the
      status line taken out and the header line given the title `-`. */
  lemma {:induction false} TemplateParsesBack(s: Severity, n: nat, render: string -> string)
    ensures var id := FolderSig(s) + "-" + FsSigIndex(n);
            var text := "# [" + id + "] -" + FINDING_TEMPLATE_BODY + "\n";
            ParseFinding(InstantiatedTemplate(FolderSig(s), FsSigIndex(n)), render)
            == Ok(Finding(id, n, "-", s, Resolved, text, RenderFragment(s, n, render(text))))
  {
    var sig, digits := FolderSig(s), FsSigIndex(n);
    var id := sig + "-" + digits;
    var row := "# [" + id + "]";
    var heading, placeholder := FINDING_RESOLUTION_STATUS_HEADING, RESOLUTION_STATUS_PLACEHOLDER;
    var after := FINDING_TEMPLATE_BODY + (heading + (placeholder + "\n"));
    TemplateShape(sig, digits);
    // The header line.
    IdentifierChars(s, n);
    HeaderLineChars(id);
    BodyChars();
    FirstRowOf(row, after);
    TemplateHeader(s, n);
    // The status line.
    var x := "# [" + id + "] -";
    var a := x + FINDING_TEMPLATE_BODY;
    StatusLineIsTheOnlyOne(x);
    NewlineIsSpace();
    StatusPlaceholder(a, "\n");
    Assoc4(a, heading, placeholder, "\n");
    Assoc3(x, FINDING_TEMPLATE_BODY, heading + (placeholder + "\n"));
  }
}
