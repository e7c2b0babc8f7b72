/**
  The checks and the template writer behind the `init`, `add-finding` and
  `compile` commands. The working directory is given as the set of directory
  names that exist in it and the listing of the findings directory.
*/
module EnvironmentSetup {
  import opened Strings
  import opened Errors
  import opened Typings
  import opened Constants
  import opened EnvironmentUtils

  // ---------------------------------------------------------------------------
  // Initialisation state
  // ---------------------------------------------------------------------------

  /** `_current_directory_initialized`: both the main directory and the findings
      directory exist. */
  predicate DirectoryInitialized(directories: set<string>)
  {
    MAIN_DIRECTORY in directories && FINDINGS_DIRECTORY in directories
  }

  /** `current_directory_initialized` as written: the command goes on when forced
      or when the state is the expected one; otherwise the message is chosen by
      the EXPECTED state. */
  function CheckInitializedAsWritten(directories: set<string>, initialized: bool, force: bool): (r: Outcome)
    ensures r.Pass? <==> force || DirectoryInitialized(directories) == initialized
    ensures r.Fail? ==> r.error == Exit(if initialized then AlreadyInitialized else NotInitialized)
  {
    if force || DirectoryInitialized(directories) == initialized then Pass
    else Fail(Exit(if initialized then AlreadyInitialized else NotInitialized))
  }

  /** As written, `add-finding` in a directory that was never initialised
      complains that it is already initialised, and `init` in an initialised
      directory complains that it is not. */
  lemma CheckInitializedMessageInverted(directories: set<string>)
    ensures !DirectoryInitialized(directories) ==>
              CheckInitializedAsWritten(directories, INITIALIZED, false) == Fail(Exit(AlreadyInitialized))
    ensures DirectoryInitialized(directories) ==>
              CheckInitializedAsWritten(directories, NOT_INITIALIZED, false) == Fail(Exit(NotInitialized))
  {
  }

  /** `current_directory_initialized` with the message naming the ACTUAL state. */
  function CheckInitialized(directories: set<string>, initialized: bool, force: bool): (r: Outcome)
    ensures r.Pass? <==> force || DirectoryInitialized(directories) == initialized
    ensures r.Fail? ==> r.error == Exit(if DirectoryInitialized(directories) then AlreadyInitialized else NotInitialized)
  {
    if force || DirectoryInitialized(directories) == initialized then Pass
    else Fail(Exit(if initialized then NotInitialized else AlreadyInitialized))
  }

  /** The corrected check differs from the written one only in the message. */
  lemma CheckInitializedAgrees(directories: set<string>, initialized: bool, force: bool)
    ensures CheckInitialized(directories, initialized, force).Pass?
        <==> CheckInitializedAsWritten(directories, initialized, force).Pass?
    ensures CheckInitialized(directories, initialized, force).Fail? ==>
              CheckInitialized(directories, initialized, force).error
                != CheckInitializedAsWritten(directories, initialized, force).error
  {
  }

  // ---------------------------------------------------------------------------
  // add_finding_template
  // ---------------------------------------------------------------------------

  /** The finding template with its severity and index filled in: a header line
      `# [sig-idx]` with no title, the empty sections, and the status line with
      its placeholder still in place. */
  function InstantiatedTemplate(sig: string, index: string): string
  {
    "# [" + sig + "-" + index + "]" + FINDING_TEMPLATE_BODY + FINDING_RESOLUTION_STATUS_SECTION + "\n"
  }

  lemma NoBraceInDigits(s: string)
    requires AllDigits(s)
    ensures '{' !in s
  {
  }

  lemma NoBraceInFolderSig(s: Severity)
    ensures '{' !in FolderSig(s)
  {
  }

  /** The text after a `{{`-placeholder's header position: a piece without `{`
      followed by one more placeholder `{{wr` and a newline is left alone when
      `wr` starts differently from the placeholder being replaced. */
  lemma ReplaceAllTemplateTail(plain: string, wr: string, w: string, rep: string)
    requires '{' !in plain && '{' !in wr && |wr| > 0 && |w| > 0 && wr[0] != w[0]
    ensures ReplaceAll(plain + ("{{" + wr) + "\n", "{{" + w, rep) == plain + ("{{" + wr) + "\n"
  {
    var pat := "{{" + w;
    assert plain + ("{{" + wr) + "\n" == plain + ("{{" + wr + "\n");
    ReplaceAllSkipPrefix(plain, "{{" + wr + "\n", pat, rep);
    DiffersAt("{{" + wr + "\n", pat, 2);
    ReplaceAllSkipBraced(wr, "\n", pat, rep);
    assert ReplaceAll("\n", pat, rep) == "\n";
  }

  /** The two substitutions of `add_finding_template` on a template of the shape
      `# [{{ws-{{wi]` + body + heading + `{{wr` + newline, where the three
      placeholders differ and none of the fixed pieces holds a `{`. */
  lemma {:induction false} FillTemplate(ws: string, wi: string, wr: string, body: string, heading: string,
                                        p: nat, sig: string, index: string)
    requires |ws| > 0 && |wi| > 0 && |wr| > 0
    requires '{' !in ws && '{' !in wi && '{' !in wr && '{' !in body && '{' !in heading
    requires p < |wi| && p < |ws| && wi[p] != ws[p]
    requires wr[0] != ws[0] && wr[0] != wi[0]
    requires '{' !in sig && '{' !in index
    ensures var template := "# [" + ("{{" + ws) + "-" + ("{{" + wi) + "]" + body + (heading + ("{{" + wr)) + "\n";
            var first := ReplaceAll(template, "{{" + ws, sig);
            ReplaceAll(first, "{{" + wi, index)
              == "# [" + sig + "-" + index + "]" + body + (heading + ("{{" + wr)) + "\n"
  {
    var sev, idx := "{{" + ws, "{{" + wi;
    var plain := "]" + body + heading;
    var tail := plain + ("{{" + wr) + "\n";
    assert '{' !in plain;
    var template := "# [" + sev + "-" + idx + "]" + body + (heading + ("{{" + wr)) + "\n";
    TemplateRegroup(sev, idx, body, heading, "{{" + wr);
    FillSeverity(ws, wi, wr, plain, p, sig);
    var head := "# [" + sig + "-";
    assert '{' !in head;
    FillIndex(wi, wr, plain, head, index);
    TemplateRegroup(sig, index, body, heading, "{{" + wr);
  }

  /** The template text grouped from the right, after `# [` and after the dash. */
  lemma TemplateRegroup(sev: string, idx: string, body: string, heading: string, r: string)
    ensures var tail := "]" + body + heading + r + "\n";
            && "# [" + sev + "-" + idx + "]" + body + (heading + r) + "\n" == "# [" + (sev + ("-" + (idx + tail)))
            && "# [" + (sev + ("-" + (idx + tail))) == ("# [" + sev + "-") + (idx + tail)
  {
  }

  /** The first substitution: the severity placeholder right after `# [`. */
  lemma {:induction false} FillSeverity(ws: string, wi: string, wr: string, plain: string, p: nat, sig: string)
    requires |ws| > 0 && |wi| > 0 && |wr| > 0
    requires '{' !in ws && '{' !in wi && '{' !in wr && '{' !in plain
    requires p < |wi| && p < |ws| && wi[p] != ws[p] && wr[0] != ws[0]
    ensures var idx, tail := "{{" + wi, plain + ("{{" + wr) + "\n";
            ReplaceAll("# [" + (("{{" + ws) + ("-" + (idx + tail))), "{{" + ws, sig)
              == ("# [" + sig + "-") + (idx + tail)
  {
    var sev, idx := "{{" + ws, "{{" + wi;
    var tail := plain + ("{{" + wr) + "\n";
    ReplaceAllSkipPrefix("# [", sev + ("-" + (idx + tail)), sev, sig);
    ReplaceAllAtFront("-" + (idx + tail), sev, sig);
    ReplaceAllSkipPrefix("-", idx + tail, sev, sig);
    DiffersAt(idx + tail, sev, p + 2);
    ReplaceAllSkipBraced(wi, tail, sev, sig);
    ReplaceAllTemplateTail(plain, wr, ws, sig);
  }

  /** The second substitution: the index placeholder after a brace-free head. */
  lemma {:induction false} FillIndex(wi: string, wr: string, plain: string, head: string, index: string)
    requires |wi| > 0 && |wr| > 0 && '{' !in wi && '{' !in wr && '{' !in plain && '{' !in head
    requires wr[0] != wi[0] && '{' !in index
    ensures var idx, tail := "{{" + wi, plain + ("{{" + wr) + "\n";
            ReplaceAll(head + (idx + tail), idx, index) == head + (index + tail)
  {
    var idx := "{{" + wi;
    var tail := plain + ("{{" + wr) + "\n";
    ReplaceAllSkipPrefix(head, idx + tail, idx, index);
    ReplaceAllAtFront(tail, idx, index);
    ReplaceAllTemplateTail(plain, wr, wi, index);
  }

  /** What follows `{{` in the three placeholders of the template: none holds a
      `{`, and they are pairwise different early on. */
  lemma PlaceholderWords()
    ensures var ws, wi, wr := "finding_severity}}", "finding_index}}", "resolution_status}}";
            && '{' !in ws && '{' !in wi && '{' !in wr
            && wi[8] == 'i' && ws[8] == 's' && wr[0] == 'r' && ws[0] == 'f' && wi[0] == 'f'
  {
  }

  lemma TemplatePiecesBraceFree()
    ensures '{' !in FINDING_TEMPLATE_BODY && '{' !in FINDING_RESOLUTION_STATUS_HEADING
  {
  }

  /** Substituting the severity signature and then the index into the finding
      template gives the instantiated template. */
  lemma FilledTemplate(sig: string, index: string)
    requires (exists s: Severity :: sig == FolderSig(s)) && AllDigits(index)
    ensures var first := ReplaceAll(BASE_FINDING_MD_TEMPLATE, FINDING_SEVERITY_PLACEHOLDER, sig);
            ReplaceAll(first, FINDING_INDEX_PLACEHOLDER, index) == InstantiatedTemplate(sig, index)
  {
    var ws, wi, wr := "finding_severity}}", "finding_index}}", "resolution_status}}";
    PlaceholderWords();
    TemplatePiecesBraceFree();
    NoBraceInDigits(index);
    var s: Severity :| sig == FolderSig(s);
    NoBraceInFolderSig(s);
    FillTemplate(ws, wi, wr, FINDING_TEMPLATE_BODY, FINDING_RESOLUTION_STATUS_HEADING, 8, sig, index);
  }

  /** The two substitutions of `add_finding_template`: the severity signature
      first, then the padded index. */
  method FillFindingTemplate(sig: string, index: string) returns (template: string)
    requires (exists s: Severity :: sig == FolderSig(s)) && AllDigits(index)
    ensures template == InstantiatedTemplate(sig, index)
  {
    template := BASE_FINDING_MD_TEMPLATE;
    template := ReplaceAll(template, FINDING_SEVERITY_PLACEHOLDER, sig);
    template := ReplaceAll(template, FINDING_INDEX_PLACEHOLDER, index);
    FilledTemplate(sig, index);
  }

  /** `add_finding_template`: the file name and the text written for a new
      finding of severity `s`, numbered one past the current count. */
  method AddFindingTemplate(listing: seq<string>, s: Severity) returns (name: string, contents: string)
    ensures name == FindingFileName(s, CurrentFindingAmount(listing, s) + 1)
    ensures contents == InstantiatedTemplate(FolderSig(s), FsSigIndex(CurrentFindingAmount(listing, s) + 1))
  {
    var folderSig := FolderSig(s);
    var index := FsSigIndex(CurrentFindingAmount(listing, s) + 1);
    contents := FillFindingTemplate(folderSig, index);
    name := "[" + folderSig + "-" + index + "].md";
  }

  /** When the findings of `s` are numbered 1 to n without gaps, the new file is
      number n + 1, a name not yet in the listing, and adding it raises the count
      of `s` by one and no other count. */
  lemma {:induction false} AddFindingExtendsNumbering(listing: seq<string>, s: Severity, n: nat)
    requires CurrentFindingAmount(listing, s) == n
    requires forall i :: 0 <= i < |listing| && CountsFor(listing[i], s) ==>
               exists j :: 1 <= j <= n && listing[i] == FindingFileName(s, j)
    ensures FindingFileName(s, n + 1) !in listing
    ensures forall t :: CurrentFindingAmount(listing + [FindingFileName(s, n + 1)], t)
                        == CurrentFindingAmount(listing, t) + (if t == s then 1 else 0)
  {
    var name := FindingFileName(s, n + 1);
    if name in listing {
      var i :| 0 <= i < |listing| && listing[i] == name;
      CountsForFindingFile(s, n + 1, s);
      var j :| 1 <= j <= n && listing[i] == FindingFileName(s, j);
      FindingFileNameInjective(s, n + 1, s, j);
    }
    forall t {
      AddedFindingFileCounts(listing, s, n + 1, t);
    }
  }

  /** The index is the count plus one whatever the numbers on disk: once finding
      1 of `s` is deleted and finding 2 remains, the new name is that of finding
      2, and `add-finding` overwrites it. */
  lemma AddFindingAfterGapOverwrites(s: Severity)
    ensures var listing := [FindingFileName(s, 2)];
            FindingFileName(s, CurrentFindingAmount(listing, s) + 1) in listing
  {
    var listing := [FindingFileName(s, 2)];
    CountsForFindingFile(s, 2, s);
    assert listing[1..] == [];
    assert CurrentFindingAmount(listing, s) == 1;
  }

  // ---------------------------------------------------------------------------
  // findings_directory_not_empty
  // ---------------------------------------------------------------------------

  /** `list.remove(x)`: drops the first occurrence of `x`. */
  function RemoveFirst(xs: seq<string>, x: string): (r: seq<string>)
    requires x in xs
    ensures multiset(r) == multiset(xs) - multiset{x}
    ensures |r| == |xs| - 1
  {
    if xs[0] == x then
      assert xs == [xs[0]] + xs[1..];
      xs[1..]
    else
      assert xs == [xs[0]] + xs[1..];
      [xs[0]] + RemoveFirst(xs[1..], x)
  }

  /** `findings_directory_not_empty`: one `.DS_Store` entry is ignored, and the
      compile stops when nothing else is listed. */
  method FindingsDirectoryNotEmpty(listing: seq<string>) returns (r: Outcome)
    ensures r.Pass? <==> multiset(listing) - multiset{".DS_Store"} != multiset{}
    ensures r.Fail? ==> r.error == Exit(FindingsDirectoryEmpty)
  {
    var directory := listing;
    if ".DS_Store" in directory {
      directory := RemoveFirst(directory, ".DS_Store");
    } else {
      assert multiset(listing) - multiset{".DS_Store"} == multiset(listing);
    }
    if |directory| > 0 {
      assert directory[0] in multiset(directory);
      return Pass;
    }
    return Fail(Exit(FindingsDirectoryEmpty));
  }
}
