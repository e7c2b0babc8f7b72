/**
  The constants of `compiloor/constants/environment.py`, `report.py` and `utils.py`.
  Long texts are written as concatenations of short pieces.
*/
module Constants {

  // --- compiloor/constants/environment.py ---------------------------------

  const FINDING_TEMPLATE_NAME: string := "finding-template.md"
  const CONFIG_NAME: string := "config.json"

  const INITIALIZED: bool := true
  const NOT_INITIALIZED: bool := false

  const MAIN_DIRECTORY: string := "compiloor-report"
  const FINDINGS_DIRECTORY: string := "findings"
  const REPORTS_DIRECTORY: string := MAIN_DIRECTORY + "/reports"
  const TEMPLATE_DIRECTORY: string := "templates"
  const CONFIG_DIRECTORY: string := MAIN_DIRECTORY + "/" + CONFIG_NAME

  const FINDING_LIST_TABLE_COLUMNS: seq<string> := ["ID", "Title", "Severity", "Status"]

  /** The initial `config.json`, in key order. */
  const BASE_CONFIG_SCHEMA: seq<(string, string)> := [
    ("title", "SECURITY RESEARCHER NAME"),
    ("author", "-"),
    ("date", "-"),
    ("company_name", "COMPANY NAME"),
    ("protocol_name", "PROTOCOL NAME"),
    ("repository", "-"),
    ("type", "-"),
    ("commit", "-"),
    ("sloc", "-"),
    ("about_author_content", "ABOUT SECTION"),
    ("disclaimer_content", "DISCLAIMER CONTENT"),
    ("introduction_content", "INTRODUCTION CONTENT"),
    ("about_protocol_content", "ABOUT PROTOCOL CONTENT"),
    ("security_assessment_summary_content", "SECURITY ASSESSMENT SUMMARY CONTENT"),
    ("template_url", "REPORT URL"),
    ("stylesheet_url", "REPORT CONTENT"),
    ("cover_img_url", "COVER IMAGE URL")
  ]

  const FINDING_RESOLUTION_STATUS_HEADING: string := "## _STATUS_="
  const RESOLUTION_STATUS_PLACEHOLDER: string := "{{" + "resolution_status}}"
  const FINDING_RESOLUTION_STATUS_SECTION: string :=
    FINDING_RESOLUTION_STATUS_HEADING + RESOLUTION_STATUS_PLACEHOLDER

  const FINDING_SEVERITY_PLACEHOLDER: string := "{{" + "finding_severity}}"
  const FINDING_INDEX_PLACEHOLDER: string := "{{" + "finding_index}}"

  /** The lines of the finding template between its header line and the status line. */
  const FINDING_TEMPLATE_BODY: string :=
    "\n\n## Severity\n\n" + "**Impact:**\n\n" + "**Likelihood:**\n\n"
    + "## Description\n\n" + "## Recommendations\n\n"

  const BASE_FINDING_MD_TEMPLATE: string :=
    "# [" + FINDING_SEVERITY_PLACEHOLDER + "-" + FINDING_INDEX_PLACEHOLDER + "]"
    + FINDING_TEMPLATE_BODY + FINDING_RESOLUTION_STATUS_SECTION + "\n"

  // --- compiloor/constants/report.py --------------------------------------

  const REPORT_VARIABLES: seq<string> := [
    "[[protocol_name_bold]]",
    "[[protocol_repository_bold]]",
    "[[protocol_date_bold]]",
    "[[type_bold]]",
    "[[protocol_sloc_bold]]"
  ]

  /** `[[protocol_<field>_bold]]`: the shape of every information-table placeholder. */
  function InformationKey(field: string): string
  {
    "[[" + "protocol_" + field + "_bold" + "]]"
  }

  /** The config fields behind the information-table placeholders, in order. */
  const INFORMATION_FIELDS: seq<string> := ["protocol_name", "repository", "date", "type", "sloc"]

  /** The information-table placeholders and their labels, in declaration order:
      `[[protocol_protocol_name_bold]]`, `[[protocol_repository_bold]]`, … */
  const INFORMATION_TABLE_VARIABLES: seq<(string, string)> := [
    (InformationKey("protocol_name"), "Protocol Name"),
    (InformationKey("repository"), "Repository"),
    (InformationKey("date"), "Date"),
    (InformationKey("type"), "Protocol Type"),
    (InformationKey("sloc"), "SLOC")
  ]

  const REPORT_SECTION_HEADINGS: seq<string> := [
    "1. About", "2. Disclaimer",
    "3. Introduction", "4. About", "5. Risk Classification",
    "5.1. Impact", "5.2. Likelihood",
    "5.3. Action required for severity levels",
    "6. Security Assessment Summary",
    "7. Executive Summary", "8. Findings"
  ]

  const PROTOCOL_INFORMATION_TABLE_COLUMNS: seq<string> := [
    "Protocol Name", "Commit", "Date", "Protocol Type", "SLOC"
  ]

  const SEVERITY_CLASSIFICATION_TABLE_ROWS: seq<seq<string>> := [
    ["Likelihood: High", "Critical", "High", "Medium"],
    ["Likelihood: Medium", "High", "Medium", "Low"],
    ["Likelihood: Low", "Medium", "Low", "Low"]
  ]
  const SEVERITY_CLASSIFICATION_TABLE_COLUMNS: seq<string> :=
    ["Severity", "Impact: High", "Impact: Medium", "Impact: Low"]

  const FINDING_COUNT_TABLE_COLUMNS: seq<string> := ["Severity", "Amount"]

  // --- compiloor/constants/utils.py ---------------------------------------

  const PAGE_NUMBER_FOR_SECTION_FONT_SIZE: int := 20
  const PAGE_NUMBER_FONT_SIZE: int := 14

  const REPORT_EXTENSION: string := ".pdf"

  /** The report attributes substituted first, in this order. */
  const MAIN_REPORT_SECTIONS: seq<string> := ["findings", "total_findings_amount", "stylesheet"]

  /** The index of the findings section, hard-coded by the report assembler. */
  const FINDINGS_SECTION_INDEX: int := 8
}
