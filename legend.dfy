/**
  The findings legend: one pass over the findings in report order that numbers
  each run of equal severities `<S>.1`, `<S>.2`, … and writes, for every run, a
  severity entry and, for every finding, a finding entry. Each entry carries a
  `{{[<key>]_page}}` token that the page-number stage later replaces.
*/
module Legend {
  import opened Strings
  import opened Typings
  import opened FindingParser

  // ---------------------------------------------------------------------------
  // The section index
  // ---------------------------------------------------------------------------

  /** The findings section index as the caller passes it: a number or a text. */
  datatype SectionIndex = IntIndex(n: int) | TextIndex(text: string)

  /** A non-text index is turned into its decimal text first. */
  function SectionIndexText(index: SectionIndex): (r: string)
    ensures index.TextIndex? ==> r == index.text
    ensures index.IntIndex? ==> |r| > 0 && PythonInt(r) == Some(index.n)
  {
    match index
    case TextIndex(text) => text
    case IntIndex(n) =>
      if n >= 0 then PythonIntOfNatToString(n); IntToString(n)
      else NegativeIntToString(n); IntToString(n)
  }

  /** `int(str(n))` gives `n` back for a negative `n` too. */
  lemma NegativeIntToString(n: int)
    requires n < 0
    ensures PythonInt(IntToString(n)) == Some(n)
  {
    var t := IntToString(n);
    var body := NatToString(-n);
    assert t == "-" + body && t[1..] == body;
    StripNoSpace(t);
  }

  // ---------------------------------------------------------------------------
  // Runs of equal severity
  // ---------------------------------------------------------------------------

  /** Finding `i` opens a run: it is the first one or its severity differs from
      the previous finding's. */
  predicate RunStart(fs: seq<Finding>, i: int)
    requires 0 <= i < |fs|
  {
    i == 0 || fs[i].severity != fs[i - 1].severity
  }

  /** The number of the run finding `i` belongs to: the runs opened at or before it. */
  function RunIndex(fs: seq<Finding>, i: int): (r: nat)
    requires 0 <= i < |fs|
    ensures 1 <= r <= i + 1
    decreases i
  {
    (if i == 0 then 0 else RunIndex(fs, i - 1)) + (if RunStart(fs, i) then 1 else 0)
  }

  /** The 1-based position of finding `i` inside its run. */
  function RunPosition(fs: seq<Finding>, i: int): (r: nat)
    requires 0 <= i < |fs|
    ensures 1 <= r <= i + 1
    decreases i
  {
    if RunStart(fs, i) then 1 else RunPosition(fs, i - 1) + 1
  }

  /** Every finding lies in a run opened at some `r <= i` by a finding of the same
      severity, with the same run number, and its position counts from there. */
  lemma {:induction false} RunStartOf(fs: seq<Finding>, i: int) returns (r: int)
    requires 0 <= i < |fs|
    ensures 0 <= r <= i && RunStart(fs, r)
    ensures fs[r].severity == fs[i].severity
    ensures RunIndex(fs, r) == RunIndex(fs, i)
    ensures RunPosition(fs, i) == i - r + 1
    ensures forall j :: r <= j <= i ==> fs[j].severity == fs[i].severity
    decreases i
  {
    if RunStart(fs, i) {
      r := i;
    } else {
      r := RunStartOf(fs, i - 1);
    }
  }

  // ---------------------------------------------------------------------------
  // The entries
  // ---------------------------------------------------------------------------

  /** `<S>.<k>`: the number of a findings subsection. */
  function SubsectionNumber(S: string, k: nat): string
  {
    S + "." + NatToString(k)
  }

  /** `{{[<key>]_page}}`: the token the page-number stage replaces. */
  function PagePlaceholder(key: string): string
  {
    "{{[" + key + "]_page}}"
  }

  /** `<S>.<k>. <Display> Findings`: the heading of a severity subsection. */
  function SeverityHeading(S: string, k: nat, s: Severity): string
  {
    SubsectionNumber(S, k) + ". " + DisplayCase(s) + " Findings"
  }

  /** `[<id>] <title>` with the title's backticks removed, as the legend shows it. */
  function LegendFindingHeading(f: Finding): string
  {
    "[" + f.id + "] " + ReplaceAll(f.title, "`", "")
  }

  /** The pieces of a severity entry, in order; the entry is their concatenation. */
  function SeverityEntryPieces(S: string, k: nat, s: Severity): seq<string>
  {
    [ "\n" + Spaces(20) + "<div class=\"sub-paragraph\">\n" + Spaces(24),
      "<a href=\"#section-" + S + "-" + NatToString(k) + "\">",
      "\n" + Spaces(28) + "<div class=\"section-wrapper\">\n" + Spaces(32) + "<p>\n" + Spaces(36),
      SeverityHeading(S, k, s),
      "\n" + Spaces(32) + "</p>\n" + Spaces(32),
      PagePlaceholder(SubsectionNumber(S, k)),
      "\n" + Spaces(28) + "</div>\n" + Spaces(24) + "</a>\n" + Spaces(20) + "</div>\n" + Spaces(16) ]
  }

  /** The legend entry of run `k` of severity `s`: a link to `#section-<S>-<k>`,
      the subsection heading and the subsection's page token. */
  function SeverityEntry(S: string, k: nat, s: Severity): (r: string)
    ensures Contains(r, "<a href=\"#section-" + S + "-" + NatToString(k) + "\">")
    ensures Contains(r, SeverityHeading(S, k, s))
    ensures Contains(r, PagePlaceholder(SubsectionNumber(S, k)))
  {
    var pieces := SeverityEntryPieces(S, k, s);
    ConcatHasPiece(pieces, 1);
    ConcatHasPiece(pieces, 3);
    ConcatHasPiece(pieces, 5);
    Concat(pieces)
  }

  /** The pieces of a finding entry, in order. */
  function FindingEntryPieces(S: string, k: nat, j: nat, f: Finding): seq<string>
  {
    [ "\n" + Spaces(12) + "<div class=\"sub-sub-paragraph\">\n" + Spaces(16),
      "<a href=\"#section-" + S + "-" + NatToString(k) + "-" + NatToString(j) + "\">",
      "\n" + Spaces(20) + "<div class=\"section-wrapper\">\n" + Spaces(24)
        + "<p class=\"legend-section-heading\">",
      LegendFindingHeading(f),
      "</p>\n" + Spaces(24) + "<p class=\"page-number\">",
      PagePlaceholder(f.id),
      "</p>\n" + Spaces(20) + "</div>\n" + Spaces(16) + "</a>\n" + Spaces(12) + "</div>\n" + Spaces(12) ]
  }

  /** The legend entry of the `j`-th finding of run `k`: a link to
      `#section-<S>-<k>-<j>`, `[<id>] <title>` and the finding's page token. */
  function FindingEntry(S: string, k: nat, j: nat, f: Finding): (r: string)
    ensures Contains(r, "<a href=\"#section-" + S + "-" + NatToString(k) + "-" + NatToString(j) + "\">")
    ensures Contains(r, LegendFindingHeading(f))
    ensures Contains(r, PagePlaceholder(f.id))
  {
    var pieces := FindingEntryPieces(S, k, j, f);
    ConcatHasPiece(pieces, 1);
    ConcatHasPiece(pieces, 3);
    ConcatHasPiece(pieces, 5);
    Concat(pieces)
  }

  // ---------------------------------------------------------------------------
  // The pass over the findings
  // ---------------------------------------------------------------------------

  /** What finding `i` adds to the fragment list, for entry formatters `sev` and
      `fin`: when it opens a run, an unmatched `<div>` (except for the first run)
      and the severity entry; then its own entry. */
  function StepWith(sev: (nat, Severity) -> string, fin: (nat, nat, Finding) -> string,
                    fs: seq<Finding>, i: int): seq<string>
    requires 0 <= i < |fs|
  {
    var k := RunIndex(fs, i);
    (if RunStart(fs, i) then (if k != 1 then ["<div>"] else []) + [sev(k, fs[i].severity)] else [])
    + [fin(k, RunPosition(fs, i), fs[i])]
  }

  /** The fragment list after the first `n` findings. */
  function FragmentsWith(sev: (nat, Severity) -> string, fin: (nat, nat, Finding) -> string,
                         fs: seq<Finding>, n: int): seq<string>
    requires 0 <= n <= |fs|
    decreases n
  {
    if n == 0 then [] else FragmentsWith(sev, fin, fs, n - 1) + StepWith(sev, fin, fs, n - 1)
  }

  /** The legend's fragment list after the first `n` findings. */
  function LegendFragments(S: string, fs: seq<Finding>, n: int): seq<string>
    requires 0 <= n <= |fs|
  {
    FragmentsWith((k: nat, s: Severity) => SeverityEntry(S, k, s),
                  (k: nat, j: nat, f: Finding) => FindingEntry(S, k, j, f), fs, n)
  }

  /** `severity_to_index` after the first `n` findings: each run start records
      its run number for its severity, overwriting an earlier run's. */
  function SeverityIndexes(fs: seq<Finding>, n: int): map<Severity, nat>
    requires 0 <= n <= |fs|
    decreases n
  {
    if n == 0 then map[]
    else
      var m := SeverityIndexes(fs, n - 1);
      if RunStart(fs, n - 1) then m[fs[n - 1].severity := RunIndex(fs, n - 1)] else m
  }

  /** The current severity, run number and position in the run once the first
      `n` findings are visited. */
  function PassCounters(fs: seq<Finding>, n: int): (Option<Severity>, nat, nat)
    requires 0 <= n <= |fs|
  {
    if n == 0 then (None, 0, 0) else (Some(fs[n - 1].severity), RunIndex(fs, n - 1), RunPosition(fs, n - 1))
  }

  /** The loop of `create_finding_severities_legend_html`, with the two entry
      f-strings as the formatters `sev` and `fin`. */
  method LegendPass(findings: seq<Finding>, sev: (nat, Severity) -> string, fin: (nat, nat, Finding) -> string)
    returns (fragments: seq<string>, severityToIndex: map<Severity, nat>)
    ensures fragments == FragmentsWith(sev, fin, findings, |findings|)
    ensures severityToIndex == SeverityIndexes(findings, |findings|)
  {
    fragments := [];
    var currentSeverity: Option<Severity> := None;
    var currentSeverityIndex: nat, currentSeverityFindingIndex: nat := 0, 0;
    severityToIndex := map[];
    for i := 0 to |findings|
      invariant fragments == FragmentsWith(sev, fin, findings, i)
      invariant severityToIndex == SeverityIndexes(findings, i)
      invariant (currentSeverity, currentSeverityIndex, currentSeverityFindingIndex) == PassCounters(findings, i)
    {
      var finding := findings[i];
      var before := fragments;
      if currentSeverity != Some(finding.severity) {
        currentSeverity := Some(finding.severity);
        currentSeverityIndex := currentSeverityIndex + 1;
        currentSeverityFindingIndex := 0;
        severityToIndex := severityToIndex[finding.severity := currentSeverityIndex];
        if currentSeverityIndex != 1 {
          fragments := fragments + ["<div>"];
        }
        fragments := fragments + [sev(currentSeverityIndex, finding.severity)];
      }
      currentSeverityFindingIndex := currentSeverityFindingIndex + 1;
      fragments := fragments + [fin(currentSeverityIndex, currentSeverityFindingIndex, finding)];
      assert fragments == before + StepWith(sev, fin, findings, i);
    }
  }

  /** `create_finding_severities_legend_html`: the joined fragments and the
      severity-to-run-number map. */
  method CreateFindingSeveritiesLegendHtml(sectionIndex: SectionIndex, findings: seq<Finding>)
    returns (html: string, severityToIndex: map<Severity, nat>)
    ensures html == Concat(LegendFragments(SectionIndexText(sectionIndex), findings, |findings|))
    ensures severityToIndex == SeverityIndexes(findings, |findings|)
    ensures |findings| == 0 ==> html == "" && severityToIndex == map[]
  {
    var S := SectionIndexText(sectionIndex);
    var fragments;
    fragments, severityToIndex := LegendPass(findings, (k: nat, s: Severity) => SeverityEntry(S, k, s),
                                             (k: nat, j: nat, f: Finding) => FindingEntry(S, k, j, f));
    html := Concat(fragments);
  }

  // ---------------------------------------------------------------------------
  // What the legend promises
  // ---------------------------------------------------------------------------

  /** A severity has a run number iff one of the first `n` findings has it. */
  lemma {:induction false} SeverityIndexed(fs: seq<Finding>, n: int, s: Severity)
    requires 0 <= n <= |fs|
    ensures s in SeverityIndexes(fs, n) <==> exists i :: 0 <= i < n && fs[i].severity == s
    decreases n
  {
    if n > 0 {
      SeverityIndexed(fs, n - 1, s);
      if fs[n - 1].severity == s && !RunStart(fs, n - 1) {
        assert fs[n - 2].severity == s;
      }
    }
  }

  /** The run number of a severity is that of the run holding its last
      occurrence among the first `n` findings. */
  lemma {:induction false} SeverityIndexOfLastRun(fs: seq<Finding>, n: int, i: int)
    requires 0 <= i < n <= |fs|
    requires forall j :: i < j < n ==> fs[j].severity != fs[i].severity
    ensures fs[i].severity in SeverityIndexes(fs, n)
    ensures SeverityIndexes(fs, n)[fs[i].severity] == RunIndex(fs, i)
    decreases n
  {
    if i < n - 1 {
      SeverityIndexOfLastRun(fs, n - 1, i);
      assert fs[n - 1].severity != fs[i].severity;
    } else if !RunStart(fs, n - 1) {
      // The previous finding has the same severity and the same run.
      SeverityIndexOfLastRun(fs, n - 1, n - 2);
    }
  }

  /** The fragments finding `i` adds hold its entry, and its run's entry when
      it opens the run. */
  lemma StepHoldsEntries(sev: (nat, Severity) -> string, fin: (nat, nat, Finding) -> string,
                         fs: seq<Finding>, i: int)
    requires 0 <= i < |fs|
    ensures var step := Concat(StepWith(sev, fin, fs, i));
            Contains(step, fin(RunIndex(fs, i), RunPosition(fs, i), fs[i]))
            && (RunStart(fs, i) ==> Contains(step, sev(RunIndex(fs, i), fs[i].severity)))
  {
    var step := StepWith(sev, fin, fs, i);
    ConcatHasPiece(step, |step| - 1);
    if RunStart(fs, i) {
      ConcatHasPiece(step, |step| - 2);
    }
  }

  /** What a text holds, the text followed by anything holds, and so does
      anything followed by the text. */
  lemma ContainsAround(a: string, b: string, sub: string)
    ensures Contains(a, sub) ==> Contains(a + b, sub)
    ensures Contains(b, sub) ==> Contains(a + b, sub)
  {
    if Contains(a, sub) {
      OccursExtend(a, b, sub, Find(a, sub).value);
    }
    if Contains(b, sub) {
      OccursPrepend(a, b, sub, Find(b, sub).value);
    }
  }

  /** The entry written for finding `i` is in the joined fragments of any longer
      prefix. */
  lemma {:induction false} FragmentsHoldFindingEntry(sev: (nat, Severity) -> string,
                                                     fin: (nat, nat, Finding) -> string,
                                                     fs: seq<Finding>, n: int, i: int)
    requires 0 <= i < n <= |fs|
    ensures Contains(Concat(FragmentsWith(sev, fin, fs, n)), fin(RunIndex(fs, i), RunPosition(fs, i), fs[i]))
    decreases n
  {
    var before := FragmentsWith(sev, fin, fs, n - 1);
    var step := StepWith(sev, fin, fs, n - 1);
    ConcatAppend(before, step);
    if i < n - 1 {
      FragmentsHoldFindingEntry(sev, fin, fs, n - 1, i);
    } else {
      StepHoldsEntries(sev, fin, fs, i);
    }
    ContainsAround(Concat(before), Concat(step), fin(RunIndex(fs, i), RunPosition(fs, i), fs[i]));
  }

  /** The entry written for a run opened by finding `i` is in the joined
      fragments of any longer prefix. */
  lemma {:induction false} FragmentsHoldSeverityEntry(sev: (nat, Severity) -> string,
                                                      fin: (nat, nat, Finding) -> string,
                                                      fs: seq<Finding>, n: int, i: int)
    requires 0 <= i < n <= |fs| && RunStart(fs, i)
    ensures Contains(Concat(FragmentsWith(sev, fin, fs, n)), sev(RunIndex(fs, i), fs[i].severity))
    decreases n
  {
    var before := FragmentsWith(sev, fin, fs, n - 1);
    var step := StepWith(sev, fin, fs, n - 1);
    ConcatAppend(before, step);
    if i < n - 1 {
      FragmentsHoldSeverityEntry(sev, fin, fs, n - 1, i);
    } else {
      StepHoldsEntries(sev, fin, fs, i);
    }
    ContainsAround(Concat(before), Concat(step), sev(RunIndex(fs, i), fs[i].severity));
  }

  /** The entries written for finding `i` and for its run are in the joined
      fragments. */
  lemma FragmentsHoldEntries(sev: (nat, Severity) -> string, fin: (nat, nat, Finding) -> string,
                             fs: seq<Finding>, i: int)
    requires 0 <= i < |fs|
    ensures var html := Concat(FragmentsWith(sev, fin, fs, |fs|));
            Contains(html, fin(RunIndex(fs, i), RunPosition(fs, i), fs[i]))
            && Contains(html, sev(RunIndex(fs, i), fs[i].severity))
  {
    FragmentsHoldFindingEntry(sev, fin, fs, |fs|, i);
    var r := RunStartOf(fs, i);
    FragmentsHoldSeverityEntry(sev, fin, fs, |fs|, r);
  }

  /** The legend carries `{{[<id>]_page}}` for every finding and
      `{{[<S>.<k>]_page}}` and the heading `<S>.<k>. <Display> Findings` for the
      run of every finding. */
  lemma LegendPlaceholders(S: string, fs: seq<Finding>, i: int)
    requires 0 <= i < |fs|
    ensures var html := Concat(LegendFragments(S, fs, |fs|));
            Contains(html, PagePlaceholder(fs[i].id))
            && Contains(html, PagePlaceholder(SubsectionNumber(S, RunIndex(fs, i))))
            && Contains(html, SeverityHeading(S, RunIndex(fs, i), fs[i].severity))
  {
    var html := Concat(LegendFragments(S, fs, |fs|));
    var k := RunIndex(fs, i);
    var fe := FindingEntry(S, k, RunPosition(fs, i), fs[i]);
    var se := SeverityEntry(S, k, fs[i].severity);
    FragmentsHoldEntries((k: nat, s: Severity) => SeverityEntry(S, k, s),
                         (k: nat, j: nat, f: Finding) => FindingEntry(S, k, j, f), fs, i);
    ContainsTrans(html, fe, PagePlaceholder(fs[i].id));
    ContainsTrans(html, se, PagePlaceholder(SubsectionNumber(S, k)));
    ContainsTrans(html, se, SeverityHeading(S, k, fs[i].severity));
  }

  /** A severity that recurs after another one gets the later run's number:
      HIGH, LOW, HIGH numbers HIGH as 3 and LOW as 2. */
  lemma RecurringSeverityOverwritten(fs: seq<Finding>)
    requires |fs| == 3 && fs[0].severity == HIGH && fs[1].severity == LOW && fs[2].severity == HIGH
    ensures SeverityIndexes(fs, 3) == map[HIGH := 3, LOW := 2]
  {
    assert RunIndex(fs, 0) == 1;
    assert RunIndex(fs, 1) == 2;
    assert RunIndex(fs, 2) == 3;
  }
}
