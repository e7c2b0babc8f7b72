/**
  The report assembler of `compiloor/services/parser/utils.py`: the findings
  part of the report (`get_finding_fragments`), and `ReportCustomizer`, whose
  `report` text is rewritten by a fixed sequence of replace-all steps.
*/
module Report {
  import opened Strings
  import opened Errors
  import opened Typings
  import opened Constants
  import opened FindingParser
  import opened EnvironmentUtils
  import opened Legend
  import opened Tables

  // ---------------------------------------------------------------------------
  // The severities that have findings, and their texts highest first
  // ---------------------------------------------------------------------------

  /** The severities among the `k` lowest whose list is not empty, in ascending
      order: the keys of the copy of the store that drops empty severities. */
  function NonEmptySeverities(fragments: map<Severity, seq<string>>, k: nat): (r: seq<Severity>)
    requires k <= |AllSeverities|
    ensures forall i :: 0 <= i < |r| ==> r[i] in fragments
  {
    if k == 0 then []
    else
      var s := AllSeverities[k - 1];
      NonEmptySeverities(fragments, k - 1) + (if s in fragments && |fragments[s]| > 0 then [s] else [])
  }

  /** A severity is kept exactly when its list is not empty, and the kept
      severities ascend strictly. */
  lemma {:induction false} NonEmptySeveritiesSpec(fragments: map<Severity, seq<string>>, k: nat)
    requires k <= |AllSeverities|
    ensures var ss := NonEmptySeverities(fragments, k);
            && (forall s :: s in ss <==> Rank(s) <= k && s in fragments && |fragments[s]| > 0)
            && (forall i, j :: 0 <= i < j < |ss| ==> Rank(ss[i]) < Rank(ss[j]))
            && (forall i :: 0 <= i < |ss| ==> Rank(ss[i]) <= k)
  {
    if k > 0 {
      NonEmptySeveritiesSpec(fragments, k - 1);
      var s := AllSeverities[k - 1];
      assert Rank(s) == k;
      forall t ensures Rank(t) == k ==> t == s {
        assert AllSeverities[Rank(t) - 1] == t;
      }
    }
  }

  /** The lists of `keys` concatenated in the order of `keys`. */
  function ConcatLists(fragments: map<Severity, seq<string>>, keys: seq<Severity>): seq<string>
    requires forall i :: 0 <= i < |keys| ==> keys[i] in fragments
  {
    if |keys| == 0 then []
    else ConcatLists(fragments, keys[..|keys| - 1]) + fragments[keys[|keys| - 1]]
  }

  /** Where each text of `ConcatLists(fragments, keys)` comes from: its severity
      and its position in that severity's list. */
  function Sources(fragments: map<Severity, seq<string>>, keys: seq<Severity>): (r: seq<(Severity, nat)>)
    requires forall i :: 0 <= i < |keys| ==> keys[i] in fragments
    ensures |r| == |ConcatLists(fragments, keys)|
    ensures forall p :: 0 <= p < |r| ==> r[p].0 in keys && r[p].0 in fragments && r[p].1 < |fragments[r[p].0]|
                                         && ConcatLists(fragments, keys)[p] == fragments[r[p].0][r[p].1]
  {
    if |keys| == 0 then []
    else
      var last := keys[|keys| - 1];
      var before := Sources(fragments, keys[..|keys| - 1]);
      var texts := ConcatLists(fragments, keys[..|keys| - 1]);
      assert forall p :: 0 <= p < |before| ==> (texts + fragments[last])[p] == texts[p];
      assert forall p :: 0 <= p < |before| ==> before[p].0 in keys[..|keys| - 1];
      before + seq(|fragments[last]|, j requires 0 <= j < |fragments[last]| => (last, j))
  }

  /** Ranks never rise along `src`. */
  predicate RanksFall(src: seq<(Severity, nat)>)
  {
    forall p, q :: 0 <= p < q < |src| ==> Rank(src[p].0) >= Rank(src[q].0)
  }

  /** Appending entries of one severity, ranked below every earlier entry,
      keeps the ranks falling. */
  lemma RanksFallAppend(before: seq<(Severity, nat)>, tail: seq<(Severity, nat)>, last: Severity)
    requires RanksFall(before)
    requires forall p :: 0 <= p < |before| ==> Rank(before[p].0) > Rank(last)
    requires forall p :: 0 <= p < |tail| ==> tail[p].0 == last
    ensures RanksFall(before + tail)
  {
    var r := before + tail;
    forall p, q | 0 <= p < q < |r| ensures Rank(r[p].0) >= Rank(r[q].0) {
      if q >= |before| {
        assert r[q] == tail[q - |before|];
        if p >= |before| {
          assert r[p] == tail[p - |before|];
        }
      }
    }
  }

  /** With keys of strictly falling rank, the texts come highest severity first. */
  lemma {:induction false} SourcesDescend(fragments: map<Severity, seq<string>>, keys: seq<Severity>)
    requires forall i :: 0 <= i < |keys| ==> keys[i] in fragments
    requires forall i, j :: 0 <= i < j < |keys| ==> Rank(keys[i]) > Rank(keys[j])
    ensures RanksFall(Sources(fragments, keys))
  {
    if |keys| > 0 {
      var front := keys[..|keys| - 1];
      var last := keys[|keys| - 1];
      SourcesDescend(fragments, front);
      var before := Sources(fragments, front);
      forall p | 0 <= p < |before| ensures Rank(before[p].0) > Rank(last) {
        var i :| 0 <= i < |front| && front[i] == before[p].0;
        assert keys[i] == before[p].0;
      }
      RanksFallAppend(before, seq(|fragments[last]|, j requires 0 <= j < |fragments[last]| => (last, j)), last);
    }
  }

  /** The finding texts in report order: the non-empty severities' lists, highest
      severity first. */
  function OrderedFragments(fragments: map<Severity, seq<string>>): seq<string>
  {
    ConcatLists(fragments, ReportKeys(fragments))
  }

  /** `reversed(list(findings.keys()))` of the copy without empty severities. */
  function ReportKeys(fragments: map<Severity, seq<string>>): (r: seq<Severity>)
    ensures forall i :: 0 <= i < |r| ==> r[i] in fragments
  {
    var present := NonEmptySeverities(fragments, |AllSeverities|);
    ReversedMembers(present);
    Reversed(present)
  }

  /** The report's severities are exactly those with a non-empty list, highest
      first. */
  lemma ReportKeysSpec(fragments: map<Severity, seq<string>>)
    ensures var keys := ReportKeys(fragments);
            && (forall s :: s in keys <==> s in fragments && |fragments[s]| > 0)
            && (forall i, j :: 0 <= i < j < |keys| ==> Rank(keys[i]) > Rank(keys[j]))
  {
    var present := NonEmptySeverities(fragments, |AllSeverities|);
    NonEmptySeveritiesSpec(fragments, |AllSeverities|);
    ReversedMembers(present);
    ReversedDescends(present);
  }

  // ---------------------------------------------------------------------------
  // Serialising the findings
  // ---------------------------------------------------------------------------

  /** The `Finding` constructor as a function of the text alone. */
  function Parser(render: string -> string): string -> Result<Finding>
  {
    t => ParseFinding(t, render)
  }

  /** `[Finding(f) for f in texts]` over the first `n` texts, with the
      constructor `parse`: the first text that does not parse stops the
      comprehension with its error. */
  function ParseAll(parse: string -> Result<Finding>, texts: seq<string>, n: nat): (r: Result<seq<Finding>>)
    requires n <= |texts|
    ensures r.Ok? <==> forall p :: 0 <= p < n ==> parse(texts[p]).Ok?
    ensures r.Ok? ==> |r.value| == n && forall p :: 0 <= p < n ==> parse(texts[p]) == Ok(r.value[p])
    ensures r.Err? ==> exists p :: 0 <= p < n && parse(texts[p]) == Err(r.error)
  {
    if n == 0 then Ok([])
    else
      match ParseAll(parse, texts, n - 1)
      case Err(e) => Err(e)
      case Ok(fs) =>
        match parse(texts[n - 1])
        case Err(e) => Err(e)
        case Ok(f) => Ok(fs + [f])
  }

  /** The comprehension that serialises the texts, one `Finding` at a time,
      with the constructor `parse` (in the report, `Parser(render)`). */
  method SerializeFindings(texts: seq<string>, parse: string -> Result<Finding>) returns (r: Result<seq<Finding>>)
    ensures r == ParseAll(parse, texts, |texts|)
  {
    var serialized: seq<Finding> := [];
    for p := 0 to |texts|
      invariant ParseAll(parse, texts, p) == Ok(serialized)
    {
      var finding := parse(texts[p]);
      if finding.Err? {
        ParseAllAfterFailure(parse, texts, p + 1);
        return Err(finding.error);
      }
      serialized := serialized + [finding.value];
    }
    return Ok(serialized);
  }

  /** Once a text has failed to parse the comprehension stays failed with the
      same error. */
  lemma {:induction false} ParseAllAfterFailure(parse: string -> Result<Finding>, texts: seq<string>, n: nat)
    requires 0 < n <= |texts| && ParseAll(parse, texts, n).Err?
    ensures ParseAll(parse, texts, |texts|) == ParseAll(parse, texts, n)
    decreases |texts| - n
  {
    if n < |texts| {
      ParseAllAfterFailure(parse, texts, n + 1);
    }
  }

  /** Every finding file names, in its header, the severity it is filed under. */
  predicate HeadersMatchFolders(fragments: map<Severity, seq<string>>, parse: string -> Result<Finding>)
  {
    forall s, j :: s in fragments && 0 <= j < |fragments[s]| && parse(fragments[s][j]).Ok?
                   ==> parse(fragments[s][j]).value.severity == s
  }

  /** The findings come highest severity first. */
  predicate Descending(fs: seq<Finding>)
  {
    forall i, j :: 0 <= i < j < |fs| ==> Rank(fs[i].severity) >= Rank(fs[j].severity)
  }

  /** When every file's header names the severity it is filed under, each
      serialised finding has the severity its text is filed under. */
  lemma SerializedSeverities(fragments: map<Severity, seq<string>>, parse: string -> Result<Finding>, fs: seq<Finding>)
    requires HeadersMatchFolders(fragments, parse)
    requires ParseAll(parse, OrderedFragments(fragments), |OrderedFragments(fragments)|) == Ok(fs)
    ensures var src := Sources(fragments, ReportKeys(fragments));
            |fs| == |src| && forall p :: 0 <= p < |fs| ==> fs[p].severity == src[p].0
  {
    var texts := OrderedFragments(fragments);
    var src := Sources(fragments, ReportKeys(fragments));
    forall p | 0 <= p < |fs| ensures fs[p].severity == src[p].0 {
      assert texts[p] == fragments[src[p].0][src[p].1];
      assert parse(texts[p]) == Ok(fs[p]);
    }
  }

  /** When every file's header names the severity it is filed under, the
      serialised findings come highest severity first, and each one's severity
      has a non-empty list. */
  lemma SerializedDescending(fragments: map<Severity, seq<string>>, parse: string -> Result<Finding>, fs: seq<Finding>)
    requires HeadersMatchFolders(fragments, parse)
    requires ParseAll(parse, OrderedFragments(fragments), |OrderedFragments(fragments)|) == Ok(fs)
    ensures Descending(fs)
    ensures forall i :: 0 <= i < |fs| ==> fs[i].severity in ReportKeys(fragments)
  {
    var keys := ReportKeys(fragments);
    ReportKeysSpec(fragments);
    var src := Sources(fragments, keys);
    SourcesDescend(fragments, keys);
    SerializedSeverities(fragments, parse, fs);
    forall i, j | 0 <= i < j < |fs| ensures Rank(fs[i].severity) >= Rank(fs[j].severity) {
      assert fs[i].severity == src[i].0 && fs[j].severity == src[j].0;
    }
    forall i | 0 <= i < |fs| ensures fs[i].severity in keys {
      assert fs[i].severity == src[i].0;
    }
  }

  // ---------------------------------------------------------------------------
  // The rendered findings of each severity
  // ---------------------------------------------------------------------------

  /** `[f.render_fragment for f in fs if f.severity == s]` */
  function RenderedOf(fs: seq<Finding>, s: Severity): (r: seq<string>)
    ensures |r| <= |fs|
  {
    if |fs| == 0 then []
    else RenderedOf(fs[..|fs| - 1], s) + (if fs[|fs| - 1].severity == s then [fs[|fs| - 1].renderFragment] else [])
  }

  /** `full_by_severity`: the rendered findings of each non-empty severity. */
  function FullBySeverity(fs: seq<Finding>, present: seq<Severity>): map<Severity, seq<string>>
  {
    map s | s in present :: RenderedOf(fs, s)
  }

  /** The loop that fills `full_by_severity`, from the highest severity down. */
  method CollectRendered(fs: seq<Finding>, present: seq<Severity>) returns (full: map<Severity, seq<string>>)
    ensures full == FullBySeverity(fs, present)
  {
    full := map[];
    for k := 0 to |AllSeverities|
      invariant full == map s | s in present && Rank(s) > |AllSeverities| - k :: RenderedOf(fs, s)
    {
      var severity := AllSeverities[|AllSeverities| - 1 - k];
      assert Rank(severity) == |AllSeverities| - k;
      if severity !in present {
        continue;
      }
      full := full[severity := RenderedOf(fs, severity)];
    }
  }

  // ---------------------------------------------------------------------------
  // The loop over the findings: headings and one block per run
  // ---------------------------------------------------------------------------

  /** `[<id>] <title>`: the heading every finding adds. */
  function FindingHeading(f: Finding): string
  {
    "[" + f.id + "] " + f.title
  }

  /** What finding `i` adds to the section headings: its own heading, then, when
      it opens a run, the run's heading `<S>.<k>. <Display> Findings`. */
  function HeadingStep(S: string, fs: seq<Finding>, i: int): seq<string>
    requires 0 <= i < |fs|
  {
    [FindingHeading(fs[i])] + (if RunStart(fs, i) then [SeverityHeading(S, RunIndex(fs, i), fs[i].severity)] else [])
  }

  /** The headings the first `n` findings add. */
  function HeadingsOf(S: string, fs: seq<Finding>, n: int): seq<string>
    requires 0 <= n <= |fs|
  {
    if n == 0 then [] else HeadingsOf(S, fs, n - 1) + HeadingStep(S, fs, n - 1)
  }

  /** Each of the first `n` findings has a severity with rendered findings. */
  predicate BlocksAvailable(full: map<Severity, seq<string>>, fs: seq<Finding>, n: int)
    requires 0 <= n <= |fs|
  {
    forall i :: 0 <= i < n ==> fs[i].severity in full
  }

  /** Finding `i` is the first whose severity has no rendered findings. */
  predicate FirstWithoutBlock(full: map<Severity, seq<string>>, fs: seq<Finding>, i: int)
  {
    0 <= i < |fs| && BlocksAvailable(full, fs, i) && fs[i].severity !in full
  }

  /** The first finding whose severity has no rendered findings; it opens a run. */
  function FirstMissing(full: map<Severity, seq<string>>, fs: seq<Finding>, n: int): (r: nat)
    requires 0 <= n <= |fs| && !BlocksAvailable(full, fs, n)
    ensures r < n && FirstWithoutBlock(full, fs, r) && RunStart(fs, r)
  {
    if !BlocksAvailable(full, fs, n - 1) then FirstMissing(full, fs, n - 1) else n - 1
  }

  /** Only one finding is the first without rendered findings. */
  lemma FirstWithoutBlockUnique(full: map<Severity, seq<string>>, fs: seq<Finding>, i: int, j: int)
    requires FirstWithoutBlock(full, fs, i) && FirstWithoutBlock(full, fs, j)
    ensures i == j
  {
  }

  /** `[[<rank>_severity_index]]` in `text` replaced by the run number `k`. */
  function ResolveIndex(text: string, s: Severity, k: nat): string
  {
    ReplaceAll(text, SeverityIndexToken(s), NatToString(k))
  }

  /** The block of the run opened by finding `i`, made by the formatter `block`
      from the run number, the severity and the severity's rendered findings
      joined by newlines, with the severity-index token resolved. */
  function RunBlock(block: (nat, Severity, string) -> string, full: map<Severity, seq<string>>,
                    fs: seq<Finding>, i: int): string
    requires 0 <= i < |fs| && fs[i].severity in full
  {
    var s := fs[i].severity;
    ResolveIndex(block(RunIndex(fs, i), s, Join(full[s], "\n")), s, RunIndex(fs, i))
  }

  /** The blocks of the runs opened among the first `n` findings. */
  function BlocksOf(block: (nat, Severity, string) -> string, full: map<Severity, seq<string>>,
                    fs: seq<Finding>, n: int): seq<string>
    requires 0 <= n <= |fs| && BlocksAvailable(full, fs, n)
  {
    if n == 0 then []
    else BlocksOf(block, full, fs, n - 1) + (if RunStart(fs, n - 1) then [RunBlock(block, full, fs, n - 1)] else [])
  }

  /** The state of the loop of `get_finding_fragments` once the first `i`
      findings are visited: the headings and blocks they add, and the current
      severity with its run number. */
  predicate AssemblyAfter(S: string, block: (nat, Severity, string) -> string, full: map<Severity, seq<string>>,
                          fs: seq<Finding>, i: int, headings: seq<string>, markdowns: seq<string>,
                          current: Option<Severity>, index: nat)
    requires 0 <= i <= |fs|
  {
    && headings == REPORT_SECTION_HEADINGS + HeadingsOf(S, fs, i)
    && BlocksAvailable(full, fs, i)
    && markdowns == BlocksOf(block, full, fs, i)
    && (i == 0 ==> current == None && index == 0)
    && (i > 0 ==> current == Some(fs[i - 1].severity) && index == RunIndex(fs, i - 1))
  }

  /** A finding of the current severity adds only its own heading. */
  lemma SameRunStep(S: string, block: (nat, Severity, string) -> string, full: map<Severity, seq<string>>,
                    fs: seq<Finding>, i: int, headings: seq<string>, markdowns: seq<string>,
                    current: Option<Severity>, index: nat)
    requires 0 <= i < |fs| && AssemblyAfter(S, block, full, fs, i, headings, markdowns, current, index)
    requires current == Some(fs[i].severity)
    ensures AssemblyAfter(S, block, full, fs, i + 1, headings + [FindingHeading(fs[i])], markdowns, current, index)
  {
    assert !RunStart(fs, i);
    assert HeadingsOf(S, fs, i + 1) == HeadingsOf(S, fs, i) + [FindingHeading(fs[i])];
  }

  /** A finding of another severity opens run `index + 1`: its heading, the
      run's heading and the run's block are added. */
  lemma NewRunStep(S: string, block: (nat, Severity, string) -> string, full: map<Severity, seq<string>>,
                   fs: seq<Finding>, i: int, headings: seq<string>, markdowns: seq<string>,
                   current: Option<Severity>, index: nat)
    requires 0 <= i < |fs| && AssemblyAfter(S, block, full, fs, i, headings, markdowns, current, index)
    requires current != Some(fs[i].severity) && fs[i].severity in full
    ensures var s := fs[i].severity;
            AssemblyAfter(S, block, full, fs, i + 1,
                          headings + [FindingHeading(fs[i])] + [SeverityHeading(S, index + 1, s)],
                          markdowns + [ResolveIndex(block(index + 1, s, Join(full[s], "\n")), s, index + 1)],
                          Some(s), index + 1)
  {
    assert RunStart(fs, i) && RunIndex(fs, i) == index + 1;
    assert HeadingsOf(S, fs, i + 1)
           == HeadingsOf(S, fs, i) + [FindingHeading(fs[i]), SeverityHeading(S, index + 1, fs[i].severity)];
  }

  /** The loop of `get_finding_fragments` over the serialised findings, with the
      block f-string as the formatter `block`: the headings after the static
      ones, and the blocks, each appended and then given its run number in
      place of the severity-index token; a run whose severity has no rendered
      findings raises `KeyError`. */
  method AssembleRuns(S: string, fs: seq<Finding>, full: map<Severity, seq<string>>,
                      block: (nat, Severity, string) -> string)
    returns (r: Result<(seq<string>, seq<string>)>)
    ensures r.Ok? <==> BlocksAvailable(full, fs, |fs|)
    ensures r.Ok? ==> r.value == (REPORT_SECTION_HEADINGS + HeadingsOf(S, fs, |fs|), BlocksOf(block, full, fs, |fs|))
    ensures r.Err? ==> !BlocksAvailable(full, fs, |fs|)
                       && r.error == Raise(KeyError(Name(fs[FirstMissing(full, fs, |fs|)].severity)))
  {
    var headings := REPORT_SECTION_HEADINGS;
    var markdowns: seq<string> := [];
    var currentSeverity: Option<Severity> := None;
    var severityIndex: nat := 0;
    for i := 0 to |fs|
      invariant AssemblyAfter(S, block, full, fs, i, headings, markdowns, currentSeverity, severityIndex)
    {
      var finding := fs[i];
      var before := headings;
      headings := headings + [FindingHeading(finding)];
      if currentSeverity == Some(finding.severity) {
        SameRunStep(S, block, full, fs, i, before, markdowns, currentSeverity, severityIndex);
        continue;
      }
      if finding.severity !in full {
        FirstWithoutBlockUnique(full, fs, i, FirstMissing(full, fs, |fs|));
        return Err(Raise(KeyError(Name(finding.severity))));
      }
      NewRunStep(S, block, full, fs, i, before, markdowns, currentSeverity, severityIndex);
      severityIndex := severityIndex + 1;
      currentSeverity := Some(finding.severity);
      headings := headings + [SeverityHeading(S, severityIndex, finding.severity)];
      var html := Join(full[finding.severity], "\n");
      markdowns := markdowns + [block(severityIndex, finding.severity, html)];
      markdowns := markdowns[|markdowns| - 1 := ResolveIndex(markdowns[|markdowns| - 1], finding.severity, severityIndex)];
    }
    return Ok((headings, markdowns));
  }

  // ---------------------------------------------------------------------------
  // The block of a run, and get_finding_fragments as a whole
  // ---------------------------------------------------------------------------

  /** The opening tag of a run's block: a `div` with id `section-<S>-<k>`. */
  function BlockDivOpen(S: string, k: nat): string
  {
    "<div id=\"section-" + S + "-" + NatToString(k) + "\" class=\"page-break-after\">"
  }

  /** The pieces of the block f-string, in order. */
  function SeverityBlockPieces(S: string, tag: string, k: nat, s: Severity, html: string): seq<string>
  {
    [ "\n" + Spaces(16),
      BlockDivOpen(S, k),
      "\n" + Spaces(20) + "<" + tag + " class=\"paragraph-subheading\">\n" + Spaces(24),
      SeverityHeading(S, k, s),
      "\n" + Spaces(20) + "</" + tag + ">\n" + Spaces(20) + "<div>\n" + Spaces(24),
      html,
      "\n" + Spaces(20) + "</div>\n" + Spaces(16) + "</div>\n" + Spaces(12) ]
  }

  /** The block of run `k` of severity `s`: a `div` with id `section-<S>-<k>`
      holding the heading `<S>.<k>. <Display> Findings` in a `tag` element and
      the run's rendered findings `html`. */
  function SeverityBlock(S: string, tag: string, k: nat, s: Severity, html: string): (r: string)
    ensures Contains(r, BlockDivOpen(S, k))
    ensures Contains(r, SeverityHeading(S, k, s))
    ensures Contains(r, html)
  {
    var pieces := SeverityBlockPieces(S, tag, k, s, html);
    ConcatHasPiece(pieces, 1);
    ConcatHasPiece(pieces, 3);
    ConcatHasPiece(pieces, 5);
    Concat(pieces)
  }

  /** The block f-string as a formatter of the run number, the severity and the
      rendered findings. */
  function Block(S: string, tag: string): (nat, Severity, string) -> string
  {
    (k: nat, s: Severity, html: string) => SeverityBlock(S, tag, k, s, html)
  }

  /** What `get_finding_fragments` returns. */
  datatype ReportFindings = ReportFindings(
    total: int,                      // the number of finding files
    amounts: map<Severity, int>,     // the number per severity
    findings: string,                // the run blocks joined by newlines
    serialized: seq<Finding>,        // the parsed findings, in report order
    headings: seq<string>)           // the section headings, for the page numbers

  /** `get_finding_fragments` with the constructor `parse` and the block
      formatter `block`: the texts of the non-empty severities highest first,
      parsed; one block per run; the static headings, each finding's heading and
      each run's heading, with the author appended to the first. The first text
      that does not parse, a run whose severity has no rendered findings, and a
      configuration without `author` each raise. */
  function FindingFragmentsWith(config: Config, store: FindingStore, parse: string -> Result<Finding>, S: string,
                                block: (nat, Severity, string) -> string): (r: Result<ReportFindings>)
  {
    var texts := OrderedFragments(store.fragments);
    match ParseAll(parse, texts, |texts|)
    case Err(e) => Err(e)
    case Ok(fs) =>
      var full := FullBySeverity(fs, ReportKeys(store.fragments));
      if !BlocksAvailable(full, fs, |fs|) then Err(Raise(KeyError(Name(fs[FirstMissing(full, fs, |fs|)].severity))))
      else if "author" !in config.values then Err(Raise(KeyError("author")))
      else
        Ok(ReportFindings(store.total, store.amounts, Join(BlocksOf(block, full, fs, |fs|), "\n"), fs,
                          WithAuthor(REPORT_SECTION_HEADINGS + HeadingsOf(S, fs, |fs|), config.values["author"])))
  }

  /** The headings with the author's name appended to the first: every heading
      but the first is kept, and the first gains ` <author>`. */
  function WithAuthor(headings: seq<string>, author: string): (r: seq<string>)
    requires |headings| > 0
    ensures |r| == |headings| && r[1..] == headings[1..]
    ensures r[0] == headings[0] + " " + author
  {
    headings[0 := headings[0] + " " + author]
  }

  /** The loop that copies the store without its empty severities. */
  method DropEmptySeverities(fragments: map<Severity, seq<string>>) returns (present: seq<Severity>)
    ensures present == NonEmptySeverities(fragments, |AllSeverities|)
  {
    present := [];
    for k := 0 to |AllSeverities|
      invariant present == NonEmptySeverities(fragments, k)
    {
      var severity := AllSeverities[k];
      if severity !in fragments || |fragments[severity]| == 0 {
        continue;
      }
      present := present + [severity];
    }
  }

  /** The loop that extends the list of texts with each kept severity's list,
      the keys taken in reverse. */
  method ExtendHighestFirst(fragments: map<Severity, seq<string>>, present: seq<Severity>) returns (texts: seq<string>)
    requires forall i :: 0 <= i < |present| ==> present[i] in fragments
    ensures texts == ConcatLists(fragments, Reversed(present))
  {
    var keys := Reversed(present);
    ReversedMembers(present);
    texts := [];
    for i := 0 to |keys|
      invariant texts == ConcatLists(fragments, keys[..i])
    {
      assert keys[..i + 1][..i] == keys[..i];
      texts := texts + fragments[keys[i]];
    }
    assert keys[..|keys|] == keys;
  }

  /** The body of `get_finding_fragments` for any finding constructor `parse`
      and block formatter `block`: its result is `FindingFragmentsWith`. */
  method AssembleFindingFragments(config: Config, store: FindingStore, parse: string -> Result<Finding>, S: string,
                                  block: (nat, Severity, string) -> string)
    returns (r: Result<ReportFindings>)
    ensures r == FindingFragmentsWith(config, store, parse, S, block)
  {
    var present := DropEmptySeverities(store.fragments);
    var texts := ExtendHighestFirst(store.fragments, present);
    assert texts == OrderedFragments(store.fragments);
    var serialized := SerializeFindings(texts, parse);
    if serialized.Err? {
      return Err(serialized.error);
    }
    var fs := serialized.value;
    ReversedMembers(present);
    var full := CollectRendered(fs, Reversed(present));
    var runs := AssembleRuns(S, fs, full, block);
    if runs.Err? {
      return Err(runs.error);
    }
    if "author" !in config.values {
      return Err(Raise(KeyError("author")));
    }
    var (headings, markdowns) := runs.value;
    headings := WithAuthor(headings, config.values["author"]);
    r := Ok(ReportFindings(store.total, store.amounts, Join(markdowns, "\n"), fs, headings));
    assert ParseAll(parse, texts, |texts|) == Ok(fs);
    assert full == FullBySeverity(fs, ReportKeys(store.fragments));
  }

  /** `get_finding_fragments(config, S, tag)` over the store the findings
      directory yields: the result is `FindingFragmentsWith` for the `Finding`
      constructor and the block f-string. */
  method GetFindingFragments(config: Config, store: FindingStore, render: string -> string, S: string, tag: string)
    returns (r: Result<ReportFindings>)
    ensures r == FindingFragmentsWith(config, store, Parser(render), S, Block(S, tag))
  {
    r := AssembleFindingFragments(config, store, Parser(render), S, Block(S, tag));
  }

  // ---------------------------------------------------------------------------
  // How the pieces agree: rendered findings, run numbers, anchors and links
  // ---------------------------------------------------------------------------

  /** The rendered findings of `s` are exactly those of the findings of
      severity `s`. */
  lemma {:induction false} RenderedOfMembers(fs: seq<Finding>, s: Severity)
    ensures forall i :: 0 <= i < |fs| && fs[i].severity == s ==> fs[i].renderFragment in RenderedOf(fs, s)
    ensures forall x :: x in RenderedOf(fs, s) ==> exists i :: 0 <= i < |fs| && fs[i].severity == s && fs[i].renderFragment == x
  {
    if |fs| > 0 {
      var front := fs[..|fs| - 1];
      RenderedOfMembers(front, s);
      forall i | 0 <= i < |fs| - 1
        ensures fs[i] == front[i]
      {
      }
    }
  }

  /** A heading of the first `n` findings stays among those of the first `m`. */
  lemma {:induction false} HeadingsKeep(S: string, fs: seq<Finding>, n: int, m: int, x: string)
    requires 0 <= n <= m <= |fs| && x in HeadingsOf(S, fs, n)
    ensures x in HeadingsOf(S, fs, m)
    decreases m
  {
    if n < m {
      HeadingsKeep(S, fs, n, m - 1, x);
    }
  }

  /** Every finding's heading is a section heading, and so is the heading of its
      run: the headings the legend shows are the ones the page numbers are
      looked up by. */
  lemma HeadingsHoldRuns(S: string, fs: seq<Finding>, i: int)
    requires 0 <= i < |fs|
    ensures var headings := HeadingsOf(S, fs, |fs|);
            FindingHeading(fs[i]) in headings
            && SeverityHeading(S, RunIndex(fs, i), fs[i].severity) in headings
  {
    StepHeadingsKept(S, fs, i, FindingHeading(fs[i]));
    var r := RunStartOf(fs, i);
    StepHeadingsKept(S, fs, r, SeverityHeading(S, RunIndex(fs, r), fs[r].severity));
  }

  /** What finding `i` adds stays among the headings. */
  lemma StepHeadingsKept(S: string, fs: seq<Finding>, i: int, x: string)
    requires 0 <= i < |fs| && x in HeadingStep(S, fs, i)
    ensures x in HeadingsOf(S, fs, |fs|)
  {
    HeadingsKeep(S, fs, i + 1, |fs|, x);
  }

  /** The legend carries the page placeholder of every finding's run heading
      and that heading is among the section headings. */
  lemma LegendHeadingsAreSectionHeadings(S: string, fs: seq<Finding>, i: int)
    requires 0 <= i < |fs|
    ensures Contains(Concat(LegendFragments(S, fs, |fs|)), SeverityHeading(S, RunIndex(fs, i), fs[i].severity))
    ensures SeverityHeading(S, RunIndex(fs, i), fs[i].severity) in REPORT_SECTION_HEADINGS + HeadingsOf(S, fs, |fs|)
  {
    LegendPlaceholders(S, fs, i);
    HeadingsHoldRuns(S, fs, i);
  }

  /** The last finding of severity `s` among the first `n`, at or after `i`. */
  function LastOfSeverity(fs: seq<Finding>, s: Severity, n: int, i: int): (r: int)
    requires 0 <= i < n <= |fs| && fs[i].severity == s
    ensures i <= r < n && fs[r].severity == s
    ensures forall j :: r < j < n ==> fs[j].severity != s
    decreases n
  {
    if fs[n - 1].severity == s then n - 1 else LastOfSeverity(fs, s, n - 1, i)
  }

  /** Findings of one severity from `i` to `l` lie in one run. */
  lemma {:induction false} OneRun(fs: seq<Finding>, i: int, l: int)
    requires 0 <= i <= l < |fs|
    requires forall j :: i <= j <= l ==> fs[j].severity == fs[i].severity
    ensures RunIndex(fs, l) == RunIndex(fs, i)
    decreases l
  {
    if i < l {
      OneRun(fs, i, l - 1);
      assert !RunStart(fs, l);
    }
  }

  /** With the findings highest severity first, each severity forms one run, and
      the legend numbers it by that run: `severity_to_index[f.severity]` is the
      number of the block `f` is rendered in. */
  lemma LegendIndexIsRun(fs: seq<Finding>, i: int)
    requires Descending(fs) && 0 <= i < |fs|
    ensures fs[i].severity in SeverityIndexes(fs, |fs|)
    ensures SeverityIndexes(fs, |fs|)[fs[i].severity] == RunIndex(fs, i)
  {
    var s := fs[i].severity;
    var l := LastOfSeverity(fs, s, |fs|, i);
    forall j | i <= j <= l
      ensures fs[j].severity == s
    {
      var t := fs[j].severity;
      assert Rank(s) >= Rank(t) >= Rank(s);
      assert AllSeverities[Rank(t) - 1] == t && AllSeverities[Rank(s) - 1] == s;
    }
    OneRun(fs, i, l);
    SeverityIndexOfLastRun(fs, |fs|, l);
  }

  /** A number written out holds no `[`. */
  lemma IntToStringNoBracket(n: int)
    ensures '[' !in IntToString(n)
  {
    var t := IntToString(n);
    if n >= 0 {
      assert forall j :: 0 <= j < |t| ==> IsDigit(t[j]);
    } else {
      var d := NatToString(-n);
      assert forall j :: 0 <= j < |d| ==> IsDigit(d[j]);
      assert t == "-" + d;
      assert forall j :: 1 <= j < |t| ==> t[j] == d[j - 1];
    }
  }

  /** Filling in the run number turns a finding's anchor into
      `section-8-<k>-<id number>`, the anchor the summary table links to. */
  lemma AnchorResolved(s: Severity, idNum: int, k: nat)
    ensures ResolveIndex(FindingAnchor(s, idNum), s, k) == SummaryAnchor(k, idNum)
  {
    var token, K, tail := SeverityIndexToken(s), NatToString(k), "-" + IntToString(idNum);
    var head := "section-8-";
    assert token[0] == '[';
    assert '[' !in head;
    IntToStringNoBracket(idNum);
    assert '[' !in tail by {
      assert forall j :: 1 <= j < |tail| ==> tail[j] == IntToString(idNum)[j - 1];
    }
    Assoc4(head, token, "-", IntToString(idNum));
    ReplaceAllSkipPrefix(head, token + tail, token, K);
    ReplaceAllAtFront(tail, token, K);
    ReplaceAllSkipPrefix(tail, "", token, K);
    assert tail + "" == tail;
    Assoc4(head, K, "-", IntToString(idNum));
  }

  /** The link the summary table gives a finding, from the legend's index of its
      severity. */
  function SummaryTarget(severityToIndex: map<Severity, nat>, f: Finding): string
    requires f.severity in severityToIndex
  {
    SummaryLink(severityToIndex[f.severity], f)
  }

  /** With the findings highest severity first, the summary table's link for
      each finding points at the anchor its block carries once the block's run
      number is filled in. */
  lemma SummaryLinkTargetsAnchor(fs: seq<Finding>, i: int)
    requires Descending(fs) && 0 <= i < |fs|
    ensures fs[i].severity in SeverityIndexes(fs, |fs|)
    ensures var anchor := ResolveIndex(FindingAnchor(fs[i].severity, fs[i].idNum), fs[i].severity, RunIndex(fs, i));
            SummaryTarget(SeverityIndexes(fs, |fs|), fs[i])
            == "<a href=\"#" + anchor + "\">[" + fs[i].id + "]</a>"
  {
    var f := fs[i];
    var k := RunIndex(fs, i);
    LegendIndexIsRun(fs, i);
    AnchorResolved(f.severity, f.idNum, k);
  }

  /** When every file's header names its folder's severity and every file
      parses, each finding's severity has rendered findings, so no run raises
      `KeyError`, and each finding is rendered into them. */
  lemma NoKeyErrorWhenHeadersMatch(fragments: map<Severity, seq<string>>, parse: string -> Result<Finding>, fs: seq<Finding>)
    requires HeadersMatchFolders(fragments, parse)
    requires ParseAll(parse, OrderedFragments(fragments), |OrderedFragments(fragments)|) == Ok(fs)
    ensures BlocksAvailable(FullBySeverity(fs, ReportKeys(fragments)), fs, |fs|)
    ensures forall i :: 0 <= i < |fs| ==> fs[i].renderFragment in FullBySeverity(fs, ReportKeys(fragments))[fs[i].severity]
  {
    SerializedDescending(fragments, parse, fs);
    forall i | 0 <= i < |fs|
      ensures fs[i].renderFragment in FullBySeverity(fs, ReportKeys(fragments))[fs[i].severity]
    {
      RenderedOfMembers(fs, fs[i].severity);
    }
  }

  /** When every file parses, every header names its folder's severity and the
      configuration has an author, `get_finding_fragments` succeeds: its
      findings come highest severity first, the first heading names the author,
      and the legend numbers each severity by the block it is rendered in. */
  lemma FindingFragmentsSucceed(config: Config, store: FindingStore, parse: string -> Result<Finding>, S: string,
                                block: (nat, Severity, string) -> string)
    requires HeadersMatchFolders(store.fragments, parse)
    requires ParseAll(parse, OrderedFragments(store.fragments), |OrderedFragments(store.fragments)|).Ok?
    requires "author" in config.values
    ensures var r := FindingFragmentsWith(config, store, parse, S, block);
            r.Ok? && |r.value.headings| > 0
            && r.value.headings[0] == REPORT_SECTION_HEADINGS[0] + " " + config.values["author"]
    ensures var r := FindingFragmentsWith(config, store, parse, S, block);
            r.Ok? && Descending(r.value.serialized)
            && (var fs := r.value.serialized;
                forall i :: 0 <= i < |fs| ==>
                  fs[i].severity in SeverityIndexes(fs, |fs|) && SeverityIndexes(fs, |fs|)[fs[i].severity] == RunIndex(fs, i))
  {
    var fs := ParseAll(parse, OrderedFragments(store.fragments), |OrderedFragments(store.fragments)|).value;
    NoKeyErrorWhenHeadersMatch(store.fragments, parse, fs);
    SerializedDescending(store.fragments, parse, fs);
    forall i | 0 <= i < |fs|
      ensures fs[i].severity in SeverityIndexes(fs, |fs|) && SeverityIndexes(fs, |fs|)[fs[i].severity] == RunIndex(fs, i)
    {
      LegendIndexIsRun(fs, i);
    }
  }
}
