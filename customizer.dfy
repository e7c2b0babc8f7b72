/**
  The `ReportCustomizer` of the report assembler. Its `report` text starts as
  the report template and is rewritten in place by a fixed sequence of
  replace-all steps: the main sections, the findings legend, the bold labels of
  the information table, the configuration variables, the legend once more and
  finally the dynamic tables.
*/
module Customizer {
  import opened Strings
  import opened Errors
  import opened Typings
  import opened Constants
  import opened FindingParser
  import opened EnvironmentUtils
  import opened Legend
  import opened Tables
  import opened Report

  // ---------------------------------------------------------------------------
  // Placeholders replaced in order
  // ---------------------------------------------------------------------------

  /** Every placeholder of `pairs` is non-empty. */
  predicate PatternsNonEmpty(pairs: seq<(string, string)>)
  {
    forall i :: 0 <= i < |pairs| ==> |pairs[i].0| > 0
  }

  /** `text` once the first `n` placeholders, in order, were each replaced
      everywhere by their value. */
  function Substitute(text: string, pairs: seq<(string, string)>, n: nat): string
    requires n <= |pairs| && PatternsNonEmpty(pairs)
  {
    if n == 0 then text else ReplaceAll(Substitute(text, pairs, n - 1), pairs[n - 1].0, pairs[n - 1].1)
  }

  /** A text without the character every placeholder starts with comes out
      unchanged. */
  lemma {:induction false} SubstituteUntouched(text: string, pairs: seq<(string, string)>, n: nat, c: char)
    requires n <= |pairs| && PatternsNonEmpty(pairs)
    requires c !in text && forall i :: 0 <= i < |pairs| ==> pairs[i].0[0] == c
    ensures Substitute(text, pairs, n) == text
  {
    if n > 0 {
      SubstituteUntouched(text, pairs, n - 1, c);
      ReplaceAllSkipPrefix(text, "", pairs[n - 1].0, pairs[n - 1].1);
      assert text + "" == text;
    }
  }

  /** A character found neither in the text nor in any value is not in the
      result. */
  lemma {:induction false} SubstituteKeepsAbsent(text: string, pairs: seq<(string, string)>, n: nat, c: char)
    requires n <= |pairs| && PatternsNonEmpty(pairs)
    requires c !in text && forall i :: 0 <= i < |pairs| ==> c !in pairs[i].1
    ensures c !in Substitute(text, pairs, n)
  {
    if n > 0 {
      SubstituteKeepsAbsent(text, pairs, n - 1, c);
      ReplaceAllKeepsAbsent(Substitute(text, pairs, n - 1), pairs[n - 1].0, pairs[n - 1].1, c);
    }
  }

  /** A placeholder still present when its turn comes puts its value into the
      text. */
  lemma SubstituteIntroduces(text: string, pairs: seq<(string, string)>, n: nat)
    requires 0 < n <= |pairs| && PatternsNonEmpty(pairs)
    requires Contains(Substitute(text, pairs, n - 1), pairs[n - 1].0)
    ensures Contains(Substitute(text, pairs, n), pairs[n - 1].1)
  {
    ReplaceAllIntroduces(Substitute(text, pairs, n - 1), pairs[n - 1].0, pairs[n - 1].1);
  }

  /** `{{<name>}}`: the placeholder of a main section or a table. */
  function Placeholder(name: string): (r: string)
    ensures |r| > 0 && r[0] == '{'
  {
    "{{" + name + "}}"
  }

  /** `{{config.<key>}}`: the placeholder of a configuration variable. */
  function ConfigPlaceholder(key: string): string
  {
    Placeholder("config." + key)
  }

  /** The text a configuration value is substituted as: rendered from markdown
      when its key contains `_content`, as it is otherwise. */
  function ConfigValue(key: string, value: string, render: string -> string): string
  {
    if Contains(key, "_content") then render(value) else value
  }

  /** Every listed key has a value. */
  predicate KeysHaveValues(config: Config)
  {
    forall i :: 0 <= i < |config.keys| ==> config.keys[i] in config.values
  }

  /** A configuration as `json.loads` reads it has a value for every listed
      key, so it can be handed to the customizer. */
  lemma ValidKeysHaveValues(config: Config)
    requires config.Valid()
    ensures KeysHaveValues(config)
  {
    forall i | 0 <= i < |config.keys|
      ensures config.keys[i] in config.values
    {
      assert config.keys[i] in config.keys;
    }
  }

  /** The configuration variables in key order, as placeholder and value. */
  function ConfigPairs(config: Config, render: string -> string): (r: seq<(string, string)>)
    requires KeysHaveValues(config)
    ensures |r| == |config.keys| && PatternsNonEmpty(r)
    ensures forall i :: 0 <= i < |r| ==> r[i].0 == ConfigPlaceholder(config.keys[i]) && r[i].0[0] == '{'
    ensures forall i :: 0 <= i < |r| ==> r[i].1 == ConfigValue(config.keys[i], config.values[config.keys[i]], render)
  {
    seq(|config.keys|, i requires 0 <= i < |config.keys| =>
      (ConfigPlaceholder(config.keys[i]), ConfigValue(config.keys[i], config.values[config.keys[i]], render)))
  }

  /** One more configuration variable substituted. */
  lemma ConfigStep(text: string, config: Config, render: string -> string, i: nat)
    requires KeysHaveValues(config) && i < |config.keys|
    ensures var key := config.keys[i];
            Substitute(text, ConfigPairs(config, render), i + 1)
            == ReplaceAll(Substitute(text, ConfigPairs(config, render), i), ConfigPlaceholder(key),
                          ConfigValue(key, config.values[key], render))
  {
  }

  /** Each information key with its label inside `tag`. */
  function BoldPairs(variables: seq<(string, string)>, tag: string): (r: seq<(string, string)>)
    requires KeysNonEmpty(variables)
    ensures |r| == |variables| && PatternsNonEmpty(r)
    ensures forall i :: 0 <= i < |r| ==> r[i] == (variables[i].0, RowHeading(variables[i].1, tag))
  {
    seq(|variables|, i requires 0 <= i < |variables| => (variables[i].0, RowHeading(variables[i].1, tag)))
  }

  /** `section_to_attribute`: the text of each main section, in the order of
      `MAIN_REPORT_SECTIONS`. */
  function SectionAttributes(findings: string, total: int, stylesheet: string): (r: seq<string>)
    ensures |r| == |MAIN_REPORT_SECTIONS|
  {
    [findings, IntToString(total), stylesheet]
  }

  /** The main sections as placeholder and text. */
  function MainSectionPairs(findings: string, total: int, stylesheet: string): (r: seq<(string, string)>)
    ensures |r| == |MAIN_REPORT_SECTIONS| && PatternsNonEmpty(r)
    ensures forall i :: 0 <= i < |r| ==> r[i].0 == Placeholder(MAIN_REPORT_SECTIONS[i]) && r[i].0[0] == '{'
    ensures forall i :: 0 <= i < |r| ==> r[i].1 == SectionAttributes(findings, total, stylesheet)[i]
  {
    var attributes := SectionAttributes(findings, total, stylesheet);
    seq(|MAIN_REPORT_SECTIONS|, i requires 0 <= i < |MAIN_REPORT_SECTIONS| =>
      (Placeholder(MAIN_REPORT_SECTIONS[i]), attributes[i]))
  }

  /** The placeholder of the findings legend. */
  const LEGEND_PLACEHOLDER: string := "{{findings_legend}}"

  /** The legend of the findings, built for the findings section. */
  function LegendHtml(serialized: seq<Finding>): string
  {
    Concat(LegendFragments(SectionIndexText(IntIndex(FINDINGS_SECTION_INDEX)), serialized, |serialized|))
  }

  // ---------------------------------------------------------------------------
  // The dynamic tables
  // ---------------------------------------------------------------------------

  /** The cell opening a bracketed identifier, and what it becomes. */
  const TABLE_CELL: string := "<td>["
  const NO_WRAP_CELL: string := "<td class=\"no-wrap-column\">["

  /** The arguments each table is built from (`kwargs`). */
  datatype TableArguments = TableArguments(
    config: map<string, string>,
    amounts: map<Severity, int>,
    total: int,
    findings: seq<Finding>,
    severityToIndex: map<Severity, nat>)

  /** The table of `kind` under its default name: the severity classification
      untitled, the information table as "Protocol Summary" with bold labels,
      the count table as "Findings Count", the summary as "Summary of Findings". */
  function DynamicTable(kind: TableKind, args: TableArguments, render: string -> string, tabulate: Tabulate)
    : Result<string>
  {
    match kind
    case SeverityClassification => Ok(CreateSeverityClassificationTable("", tabulate))
    case Information =>
      InformationKeysNonEmpty();
      InformationTableOf(args.config, INFORMATION_TABLE_VARIABLES, render, "Protocol Summary", "b", tabulate)
    case FindingsCount =>
      (match CreateHtmlTableAsWritten(CountTableRows(args.amounts), FINDING_COUNT_TABLE_COLUMNS, "Findings Count",
                                      true, "h3", true, tabulate)
       case Ok(t) => Ok(FillTotals(t, args.total))
       case Err(e) => Err(e))
    case FindingsSummary =>
      LinkFindings(TitledTable(FindingRows(args.findings), FINDING_LIST_TABLE_COLUMNS, "Summary of Findings",
                               "h3", true, tabulate),
                   args.findings, args.severityToIndex, SummaryLink, |args.findings|)
  }

  /** The table builders as one function of the kind. */
  function Builder(args: TableArguments, render: string -> string, tabulate: Tabulate): TableKind -> Result<string>
  {
    kind => DynamicTable(kind, args, render, tabulate)
  }

  /** Building the table of `kind` with the builder `fragment_to_callable` maps
      its name to. */
  method BuildTable(kind: TableKind, args: TableArguments, render: string -> string, tabulate: Tabulate)
    returns (r: Result<string>)
    ensures r == DynamicTable(kind, args, render, tabulate)
  {
    match kind
    case SeverityClassification =>
      r := Ok(CreateSeverityClassificationTable("", tabulate));
    case Information =>
      r := CreateInformationTable(args.config, render, "Protocol Summary", "b", tabulate);
      InformationTableUnique(args.config, INFORMATION_TABLE_VARIABLES, render, "Protocol Summary", "b", tabulate, r);
    case FindingsCount =>
      var table := CreateFindingsCountTable(args.amounts, args.total, "Findings Count", tabulate);
      r := Ok(table);
    case FindingsSummary =>
      r := CreateFindingsSummaryTable(args.findings, args.severityToIndex, "Summary of Findings", tabulate);
  }

  /** The text after the first `n` tables were put in place of their
      placeholders, and the error of the first table that could not be built
      (after which nothing more is replaced). */
  function InsertTables(text: string, tables: seq<(string, TableKind)>, build: TableKind -> Result<string>, n: nat)
    : (string, Option<Error>)
    requires n <= |tables|
  {
    if n == 0 then (text, None)
    else
      var (t, failure) := InsertTables(text, tables, build, n - 1);
      if failure.Some? then (t, failure)
      else match build(tables[n - 1].1)
        case Err(e) => (t, Some(e))
        case Ok(table) => (ReplaceAll(t, Placeholder(tables[n - 1].0), table), None)
  }

  /** Once a table has failed, the failure and the text stay. */
  lemma {:induction false} InsertTablesAfterFailure(text: string, tables: seq<(string, TableKind)>,
                                                    build: TableKind -> Result<string>, n: nat)
    requires 0 < n <= |tables| && InsertTables(text, tables, build, n).1.Some?
    ensures InsertTables(text, tables, build, |tables|) == InsertTables(text, tables, build, n)
    decreases |tables| - n
  {
    if n < |tables| {
      InsertTablesAfterFailure(text, tables, build, n + 1);
    }
  }

  /** When only table `j` can fail, the insertion fails exactly when it does,
      with its error. */
  lemma {:induction false} InsertTablesOnlyFailure(text: string, tables: seq<(string, TableKind)>,
                                                   build: TableKind -> Result<string>, n: nat, j: nat)
    requires n <= |tables| && j < |tables|
    requires forall i :: 0 <= i < |tables| && i != j ==> build(tables[i].1).Ok?
    ensures InsertTables(text, tables, build, n).1
            == if j < n && build(tables[j].1).Err? then Some(build(tables[j].1).error) else None
  {
    if n > 0 {
      InsertTablesOnlyFailure(text, tables, build, n - 1, j);
    }
  }

  /** `add_dynamic_tables_to_report` as a value: the report and whether it
      raised. Without a failure every `<td>[` then opens a no-wrap cell. */
  function TablesAdded(text: string, build: TableKind -> Result<string>): (string, Outcome)
  {
    var (t, failure) := InsertTables(text, FragmentToCallable(), build, |FragmentToCallable()|);
    if failure.Some? then (t, Fail(failure.value)) else (ReplaceAll(t, TABLE_CELL, NO_WRAP_CELL), Pass)
  }

  // ---------------------------------------------------------------------------
  // assemble_report as a value
  // ---------------------------------------------------------------------------

  /** The main sections in place of their placeholders. */
  function SectionsFilled(text: string, findings: string, total: int, stylesheet: string): string
  {
    Substitute(text, MainSectionPairs(findings, total, stylesheet), |MAIN_REPORT_SECTIONS|)
  }

  /** The legend in place of its placeholder. */
  function LegendAdded(text: string, serialized: seq<Finding>): string
  {
    ReplaceAll(text, LEGEND_PLACEHOLDER, LegendHtml(serialized))
  }

  /** The information keys replaced by their labels inside `tag`. */
  function LabelsBolded(text: string, tag: string): string
  {
    InformationKeysNonEmpty();
    Substitute(text, BoldPairs(INFORMATION_TABLE_VARIABLES, tag), |INFORMATION_TABLE_VARIABLES|)
  }

  /** The configuration variables in place of their placeholders. */
  function ConfigFilled(text: string, config: Config, render: string -> string): string
    requires KeysHaveValues(config)
  {
    Substitute(text, ConfigPairs(config, render), |config.keys|)
  }

  /** The report before the tables: the main sections; the legend; the bold
      information labels; the configuration variables; the legend again. */
  function PlaceholdersFilled(template: string, config: Config, findings: string, total: int, stylesheet: string,
                              serialized: seq<Finding>, render: string -> string): string
    requires KeysHaveValues(config)
  {
    var once := LegendAdded(SectionsFilled(template, findings, total, stylesheet), serialized);
    LegendAdded(ConfigFilled(LabelsBolded(once, "b"), config, render), serialized)
  }

  /** The report `assemble_report` leaves, and whether it raised: the
      placeholders filled, then the dynamic tables, built with the legend's
      severity indexes. */
  function AssembledReport(template: string, config: Config, findings: string, total: int, stylesheet: string,
                           amounts: map<Severity, int>, serialized: seq<Finding>,
                           render: string -> string, tabulate: Tabulate): (string, Outcome)
    requires KeysHaveValues(config)
  {
    var args := TableArguments(config.values, amounts, total, serialized, SeverityIndexes(serialized, |serialized|));
    TablesAdded(PlaceholdersFilled(template, config, findings, total, stylesheet, serialized, render),
                Builder(args, render, tabulate))
  }

  // ---------------------------------------------------------------------------
  // The class
  // ---------------------------------------------------------------------------

  class ReportCustomizer {
    var config: Config                                // the report configuration
    var report: string                                // the report, rewritten step by step
    var stylesheet: string                            // the CSS stylesheet inside `style`
    var totalFindingsAmount: int                      // the number of findings
    var findingAmountsBySeverity: map<Severity, int>  // the number per severity
    var findings: string                              // the findings' blocks
    var serializedFindings: seq<Finding>              // the parsed findings
    var reportSectionHeadings: seq<string>            // the section headings
    var severityToIndex: map<Severity, nat>           // set by the legend

    /** Every key of the configuration has a value. */
    ghost predicate Valid()
      reads this
    {
      KeysHaveValues(config)
    }

    /** The arguments the dynamic tables are built from. */
    function Arguments(): TableArguments
      reads this
    {
      TableArguments(config.values, findingAmountsBySeverity, totalFindingsAmount, serializedFindings, severityToIndex)
    }

    /** The fields `__init__` reads in: the configuration, the template, the
        stylesheet and what `get_finding_fragments` returned. */
    constructor (config: Config, template: string, stylesheet: string, fragments: ReportFindings)
      requires KeysHaveValues(config)
      ensures Valid()
      ensures this.config == config && report == template && this.stylesheet == stylesheet
      ensures totalFindingsAmount == fragments.total && findingAmountsBySeverity == fragments.amounts
      ensures findings == fragments.findings && serializedFindings == fragments.serialized
      ensures reportSectionHeadings == fragments.headings && severityToIndex == map[]
    {
      this.config := config;
      report := template;
      this.stylesheet := stylesheet;
      totalFindingsAmount := fragments.total;
      findingAmountsBySeverity := fragments.amounts;
      findings := fragments.findings;
      serializedFindings := fragments.serialized;
      reportSectionHeadings := fragments.headings;
      severityToIndex := map[];
    }

    /** `add_report_config_variables`: every `{{config.<key>}}`, in key order,
        replaced by the key's value, rendered when the key names content. */
    method AddReportConfigVariables(render: string -> string)
      requires KeysHaveValues(config)
      modifies this`report
      ensures report == ConfigFilled(old(report), config, render)
    {
      var cfg, text := config, report;
      ghost var template := text;
      for i := 0 to |cfg.keys|
        invariant text == Substitute(template, ConfigPairs(cfg, render), i)
      {
        var key := cfg.keys[i];
        var value := cfg.values[key];
        if Contains(key, "_content") {
          value := render(value);
        }
        assert value == ConfigValue(key, cfg.values[key], render);
        ConfigStep(template, cfg, render, i);
        text := ReplaceAll(text, ConfigPlaceholder(key), value);
      }
      report := text;
    }

    /** `add_information_table_variables_to_report`: every information key
        replaced by its label inside `tag`. */
    method AddInformationTableVariablesToReport(tag: string)
      modifies this`report
      ensures report == LabelsBolded(old(report), tag)
    {
      InformationKeysNonEmpty();
      ghost var pairs := BoldPairs(INFORMATION_TABLE_VARIABLES, tag);
      for i := 0 to |INFORMATION_TABLE_VARIABLES|
        invariant report == Substitute(old(report), pairs, i)
      {
        var (key, caption) := INFORMATION_TABLE_VARIABLES[i];
        report := ReplaceAll(report, key, RowHeading(caption, tag));
      }
    }

    /** `add_findings_legend`: the legend of the findings in place of
        `{{findings_legend}}`, and its severity indexes kept. */
    method AddFindingsLegend()
      modifies this`report, this`severityToIndex
      ensures report == LegendAdded(old(report), serializedFindings)
      ensures severityToIndex == SeverityIndexes(serializedFindings, |serializedFindings|)
    {
      var html, indexes := CreateFindingSeveritiesLegendHtml(IntIndex(FINDINGS_SECTION_INDEX), serializedFindings);
      severityToIndex := indexes;
      report := ReplaceAll(report, LEGEND_PLACEHOLDER, html);
    }

    /** `add_dynamic_tables_to_report`: each table of `fragment_to_callable`, in
        order, in place of `{{<name>}}`; then every `<td>[` opens a no-wrap
        cell. A table that cannot be built raises, and the tables before it
        stay in place. */
    method AddDynamicTablesToReport(render: string -> string, tabulate: Tabulate) returns (outcome: Outcome)
      modifies this`report
      ensures (report, outcome) == TablesAdded(old(report), Builder(Arguments(), render, tabulate))
    {
      var args := Arguments();
      ghost var build := Builder(args, render, tabulate);
      var tables := FragmentToCallable();
      for i := 0 to |tables|
        invariant InsertTables(old(report), tables, build, i) == (report, None)
      {
        var (name, kind) := tables[i];
        var table := BuildTable(kind, args, render, tabulate);
        if table.Err? {
          InsertTablesAfterFailure(old(report), tables, build, i + 1);
          return Fail(table.error);
        }
        report := ReplaceAll(report, Placeholder(name), table.value);
      }
      report := ReplaceAll(report, TABLE_CELL, NO_WRAP_CELL);
      return Pass;
    }

    /** `{{<section>}}` for each main section replaced by its text. */
    method AddMainSections()
      modifies this`report
      ensures report == SectionsFilled(old(report), findings, totalFindingsAmount, stylesheet)
    {
      var attributes := SectionAttributes(findings, totalFindingsAmount, stylesheet);
      ghost var pairs := MainSectionPairs(findings, totalFindingsAmount, stylesheet);
      for i := 0 to |MAIN_REPORT_SECTIONS|
        invariant report == Substitute(old(report), pairs, i)
      {
        report := ReplaceAll(report, Placeholder(MAIN_REPORT_SECTIONS[i]), attributes[i]);
      }
    }

    /** The first five steps of `assemble_report`: every placeholder but the
        tables' filled, the legend's indexes recorded. */
    method FillPlaceholders(render: string -> string)
      requires Valid()
      modifies this`report, this`severityToIndex
      ensures report == PlaceholdersFilled(old(report), config, findings, totalFindingsAmount, stylesheet,
                                           serializedFindings, render)
      ensures severityToIndex == SeverityIndexes(serializedFindings, |serializedFindings|)
    {
      ghost var template, cfg, serialized := report, config, serializedFindings;
      FillSectionsAndLegend();
      ghost var once := report;
      assert once == LegendAdded(SectionsFilled(template, findings, totalFindingsAmount, stylesheet), serialized);
      FillLabelsAndConfig(render);
      assert report == ConfigFilled(LabelsBolded(once, "b"), cfg, render);
      AddFindingsLegend();
    }

    /** The main sections, then the legend. */
    method FillSectionsAndLegend()
      modifies this`report, this`severityToIndex
      ensures report == LegendAdded(SectionsFilled(old(report), findings, totalFindingsAmount, stylesheet),
                                    serializedFindings)
      ensures severityToIndex == SeverityIndexes(serializedFindings, |serializedFindings|)
    {
      AddMainSections();
      AddFindingsLegend();
    }

    /** The bold information labels, then the configuration variables. */
    method FillLabelsAndConfig(render: string -> string)
      requires KeysHaveValues(config)
      modifies this`report
      ensures report == ConfigFilled(LabelsBolded(old(report), "b"), config, render)
    {
      AddInformationTableVariablesToReport("b");
      AddReportConfigVariables(render);
    }

    /** `assemble_report`: the main sections; then the `add_` methods in name
        order but the tables (the legend, the information labels, the
        configuration variables); the legend again; the tables last. */
    method AssembleReport(render: string -> string, tabulate: Tabulate) returns (outcome: Outcome)
      requires Valid()
      modifies this`report, this`severityToIndex
      ensures (report, outcome) == AssembledReport(old(report), config, findings, totalFindingsAmount, stylesheet,
                                                   findingAmountsBySeverity, serializedFindings, render, tabulate)
      ensures severityToIndex == SeverityIndexes(serializedFindings, |serializedFindings|)
    {
      FillPlaceholders(render);
      outcome := AddDynamicTablesToReport(render, tabulate);
    }
  }

  // ---------------------------------------------------------------------------
  // What the assembly promises
  // ---------------------------------------------------------------------------

  /** Every finding's severity has an index in the legend's map, so the summary
      table always links. */
  lemma LegendIndexesAll(fs: seq<Finding>)
    ensures AllIndexed(fs, SeverityIndexes(fs, |fs|), |fs|)
  {
    forall i | 0 <= i < |fs|
      ensures fs[i].severity in SeverityIndexes(fs, |fs|)
    {
      SeverityIndexed(fs, |fs|, fs[i].severity);
    }
  }

  /** With the legend's indexes only the information table can fail. */
  lemma OnlyInformationFails(args: TableArguments, render: string -> string, tabulate: Tabulate, i: nat)
    requires args.severityToIndex == SeverityIndexes(args.findings, |args.findings|)
    requires i < |FragmentToCallable()| && FragmentToCallable()[i].1 != Information
    ensures DynamicTable(FragmentToCallable()[i].1, args, render, tabulate).Ok?
  {
    var kind := FragmentToCallable()[i].1;
    if kind == FindingsSummary {
      LegendIndexesAll(args.findings);
      LinkFindingsFails(TitledTable(FindingRows(args.findings), FINDING_LIST_TABLE_COLUMNS, "Summary of Findings",
                                    "h3", true, tabulate),
                        args.findings, args.severityToIndex, SummaryLink, |args.findings|);
    } else if kind == FindingsCount {
      var rows := CountTableRows(args.amounts);
      assert rows[|rows| - 1] == TOTAL_ROW;
    }
  }

  /** The count table in the report is the titled table with the totals filled
      in and no row bolded, whenever the rendered rows hold no `[`. */
  lemma CountTableInReportPlain(args: TableArguments, render: string -> string, tabulate: Tabulate)
    requires '[' !in tabulate(CountTableRows(args.amounts), FINDING_COUNT_TABLE_COLUMNS)
    ensures DynamicTable(FindingsCount, args, render, tabulate)
            == Ok(FillTotals(TitledTable(CountTableRows(args.amounts), FINDING_COUNT_TABLE_COLUMNS, "Findings Count",
                                         "h3", true, tabulate), args.total))
  {
    CountTableUnhighlighted(args.amounts, "Findings Count", tabulate);
  }

  /** `assemble_report` raises exactly when an information field is missing
      from the configuration, whatever the template holds, and the error is the
      `KeyError` of the first missing field. */
  lemma AssemblyFailsOnlyForMissingFields(template: string, config: Config, findings: string, total: int,
                                          stylesheet: string, amounts: map<Severity, int>, serialized: seq<Finding>,
                                          render: string -> string, tabulate: Tabulate)
    requires KeysHaveValues(config)
    ensures var outcome := AssembledReport(template, config, findings, total, stylesheet, amounts, serialized,
                                           render, tabulate).1;
            outcome.Fail? <==> !FieldsPresent(config.values, INFORMATION_TABLE_VARIABLES, |INFORMATION_TABLE_VARIABLES|)
    ensures var outcome := AssembledReport(template, config, findings, total, stylesheet, amounts, serialized,
                                           render, tabulate).1;
            outcome.Fail? ==> InformationRows(config.values, INFORMATION_TABLE_VARIABLES, |INFORMATION_TABLE_VARIABLES|)
                              == Err(outcome.error)
  {
    InformationKeysNonEmpty();
    var args := TableArguments(config.values, amounts, total, serialized, SeverityIndexes(serialized, |serialized|));
    var build := Builder(args, render, tabulate);
    var tables := FragmentToCallable();
    forall i | 0 <= i < |tables| && i != 1
      ensures build(tables[i].1).Ok?
    {
      OnlyInformationFails(args, render, tabulate, i);
    }
    var text := PlaceholdersFilled(template, config, findings, total, stylesheet, serialized, render);
    InsertTablesOnlyFailure(text, tables, build, |tables|, 1);
    InformationRowsFail(config.values, INFORMATION_TABLE_VARIABLES, |INFORMATION_TABLE_VARIABLES|);
  }
}
