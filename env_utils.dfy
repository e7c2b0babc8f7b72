/**
  The findings store and the configuration as `FileUtils`, `FindingUtils` and
  `ReportUtils` see them. A directory listing is a sequence of names in listing
  order; the contents of the files are a map from name to text, and a name that
  is missing from the map is a file that `open` cannot find.
*/
module EnvironmentUtils {
  import opened Strings
  import opened Errors
  import opened Typings
  import opened Constants

  // ---------------------------------------------------------------------------
  // File names
  // ---------------------------------------------------------------------------

  /** `get_fs_sig_index`: the index padded to two digits with a leading zero.
      For a non-negative index the result is all digits, at least two of them,
      and reads back as the index; from 10 on there is no leading zero. */
  function FsSigIndex(index: int): (r: string)
    ensures index >= 0 ==> |r| >= 2 && AllDigits(r) && DigitsValue(r) == index
    ensures 0 <= index < 100 ==> |r| == 2
    ensures index >= 10 ==> r[0] != '0'
  {
    if index < 10 then
      if index >= 0 then
        assert AllDigits("0" + NatToString(index));
        DigitsValueLeadingZero("0" + NatToString(index));
        assert ("0" + NatToString(index))[1..] == NatToString(index);
        "0" + IntToString(index)
      else "0" + IntToString(index)
    else NatToString(index)
  }

  /** Different non-negative indexes give different padded strings. */
  lemma FsSigIndexInjective(i: nat, j: nat)
    ensures FsSigIndex(i) == FsSigIndex(j) ==> i == j
  {
  }

  /** The name `read_finding` opens in the findings directory. */
  function FindingFileName(s: Severity, index: int): (r: string)
    ensures StartsWith(r, "[" + FolderSig(s) + "-") && EndsWith(r, "].md")
  {
    var name := "[" + FolderSig(s) + "-" + FsSigIndex(index) + "].md";
    assert name[..|FolderSig(s)| + 2] == "[" + FolderSig(s) + "-";
    name
  }

  lemma FindingFileNameShape(s: Severity, index: int)
    ensures FindingFileName(s, index) == "[" + (FolderSig(s) + ['-'] + (FsSigIndex(index) + "].md"))
  {
  }

  /** Distinct (severity, index) pairs, indexes non-negative, name distinct files. */
  lemma FindingFileNameInjective(s: Severity, i: nat, t: Severity, j: nat)
    requires FindingFileName(s, i) == FindingFileName(t, j)
    ensures s == t && i == j
  {
    var fs, ft := FolderSig(s), FolderSig(t);
    var ti, tj := FsSigIndex(i) + "].md", FsSigIndex(j) + "].md";
    FindingFileNameShape(s, i);
    FindingFileNameShape(t, j);
    var a := FindingFileName(s, i);
    assert a[1..] == fs + ['-'] + ti;
    assert a[1..] == ft + ['-'] + tj;
    SplitCharUnique(fs, '-', ti, ft, tj);
    FolderSigInjective(s, t);
    assert FsSigIndex(i) == ti[..|ti| - 4];
    assert FsSigIndex(j) == tj[..|tj| - 4];
    FsSigIndexInjective(i, j);
  }

  /** The contents of finding `index` of severity `s`, or the error of `open`. */
  function ReadFinding(files: map<string, string>, s: Severity, index: int): (r: Result<string>)
    ensures r.Ok? <==> FindingFileName(s, index) in files
    ensures r.Ok? ==> r.value == files[FindingFileName(s, index)]
    ensures r.Err? ==> r.error == Raise(FileNotFound(FindingFileName(s, index)))
  {
    var name := FindingFileName(s, index);
    if name in files then Ok(files[name]) else Err(Raise(FileNotFound(name)))
  }

  // ---------------------------------------------------------------------------
  // Counting findings
  // ---------------------------------------------------------------------------

  /** The filter of `get_current_finding_amount`: a Markdown file whose name
      starts with `[` and the signature of `s`. */
  predicate CountsFor(name: string, s: Severity)
  {
    EndsWith(name, ".md") && StartsWith(name, "[" + FolderSig(s))
  }

  /** `get_current_finding_amount`: how many listed names pass the filter. */
  function CurrentFindingAmount(listing: seq<string>, s: Severity): (r: nat)
    ensures r <= |listing|
    ensures r == 0 <==> forall i :: 0 <= i < |listing| ==> !CountsFor(listing[i], s)
    decreases |listing|
  {
    if |listing| == 0 then 0
    else
      var rest := CurrentFindingAmount(listing[1..], s);
      assert forall i :: 1 <= i < |listing| ==> listing[i] == listing[1..][i - 1];
      (if CountsFor(listing[0], s) then 1 else 0) + rest
  }

  lemma {:induction false} CurrentFindingAmountAppend(listing: seq<string>, name: string, s: Severity)
    ensures CurrentFindingAmount(listing + [name], s)
         == CurrentFindingAmount(listing, s) + (if CountsFor(name, s) then 1 else 0)
    decreases |listing|
  {
    if |listing| == 0 {
      assert listing + [name] == [name];
      assert [name][1..] == [];
    } else {
      assert (listing + [name])[1..] == listing[1..] + [name];
      CurrentFindingAmountAppend(listing[1..], name, s);
    }
  }

  /** The signatures start with six different letters. */
  lemma FolderSigFirstChar(s: Severity, t: Severity)
    ensures FolderSig(s)[0] == FolderSig(t)[0] ==> s == t
  {
  }

  /** No signature is a prefix of another one. */
  lemma FolderSigPrefixFree(s: Severity, t: Severity)
    requires StartsWith(FolderSig(t), FolderSig(s))
    ensures s == t
  {
    assert FolderSig(t)[0] == FolderSig(s)[0];
    FolderSigFirstChar(s, t);
  }

  /** The file of a finding of `t` is counted for `s` exactly when `s` is `t`. */
  lemma CountsForFindingFile(t: Severity, index: int, s: Severity)
    ensures CountsFor(FindingFileName(t, index), s) <==> s == t
  {
    var name := FindingFileName(t, index);
    var fs, ft := FolderSig(s), FolderSig(t);
    StartsWithPrefix(name, "[" + ft, "-");
    EndsWithSuffix(name, "]", ".md");
    if StartsWith(name, "[" + fs) {
      var rest := FsSigIndex(index) + "].md";
      FindingFileNameShape(t, index);
      StartsWithTail('[', ft + ['-'] + rest, fs);
      PrefixBeforeChar(ft, '-', rest, fs);
      FolderSigPrefixFree(s, t);
    }
  }

  /** Adding the file of a finding of `t` raises the count of `t` by one and
      leaves the count of every other severity unchanged. */
  lemma AddedFindingFileCounts(listing: seq<string>, t: Severity, index: int, s: Severity)
    ensures CurrentFindingAmount(listing + [FindingFileName(t, index)], s)
         == CurrentFindingAmount(listing, s) + (if s == t then 1 else 0)
  {
    CurrentFindingAmountAppend(listing, FindingFileName(t, index), s);
    CountsForFindingFile(t, index, s);
  }

  /** The result of `get_finding_fragments`: the total, the count per severity
      and the contents of each severity's files in index order. */
  datatype FindingStore = FindingStore(
    total: int,
    amounts: map<Severity, int>,
    fragments: map<Severity, seq<string>>)

  /** Every file `get_finding_fragments` opens is present. */
  predicate AllFindingFilesPresent(listing: seq<string>, files: map<string, string>)
  {
    forall s: Severity, i: int :: 1 <= i <= CurrentFindingAmount(listing, s) ==> FindingFileName(s, i) in files
  }

  /** The sum of the counts of the `k` lowest severities. */
  function AmountSum(listing: seq<string>, k: nat): nat
    requires k <= |AllSeverities|
  {
    if k == 0 then 0
    else AmountSum(listing, k - 1) + CurrentFindingAmount(listing, AllSeverities[k - 1])
  }

  /** The list comprehension of `get_finding_fragments`: files 1 to `amount` of
      severity `s`, read in index order. */
  method ReadSeverityFindings(files: map<string, string>, s: Severity, amount: nat) returns (r: Result<seq<string>>)
    ensures r.Ok? <==> forall i :: 1 <= i <= amount ==> FindingFileName(s, i) in files
    ensures r.Ok? ==> |r.value| == amount
    ensures r.Ok? ==> forall i :: 0 <= i < amount ==> r.value[i] == files[FindingFileName(s, i + 1)]
    ensures r.Err? ==> r.error.Raise? && r.error.exception.FileNotFound? && r.error.exception.name !in files
  {
    var contents: seq<string> := [];
    var fileName := (j: int) => FindingFileName(s, j);
    for i := 1 to amount + 1
      invariant ReadUpTo(files, fileName, i, contents)
    {
      var text := ReadFinding(files, s, i);
      if text.Err? {
        return Err(text.error);
      }
      ReadNext(files, fileName, i, contents);
      contents := contents + [text.value];
    }
    ReadDone(files, fileName, s, amount, contents);
    return Ok(contents);
  }

  lemma ReadDone(files: map<string, string>, fileName: int -> string, s: Severity, amount: nat, contents: seq<string>)
    requires ReadUpTo(files, fileName, amount + 1, contents)
    requires forall j :: fileName(j) == FindingFileName(s, j)
    ensures |contents| == amount
    ensures forall i :: 1 <= i <= amount ==> FindingFileName(s, i) in files
    ensures forall i :: 0 <= i < amount ==> contents[i] == files[FindingFileName(s, i + 1)]
  {
  }

  /** Files 1 to `i - 1` are present and `contents` holds them in order. */
  ghost predicate ReadUpTo(files: map<string, string>, fileName: int -> string, i: int, contents: seq<string>)
  {
    && |contents| == i - 1
    && (forall j :: 1 <= j < i ==> fileName(j) in files)
    && (forall j :: 0 <= j < |contents| ==> contents[j] == files[fileName(j + 1)])
  }

  lemma ReadNext(files: map<string, string>, fileName: int -> string, i: int, contents: seq<string>)
    requires ReadUpTo(files, fileName, i, contents) && fileName(i) in files
    ensures ReadUpTo(files, fileName, i + 1, contents + [files[fileName(i)]])
  {
    var next := contents + [files[fileName(i)]];
    assert forall j :: 0 <= j < |contents| ==> next[j] == contents[j];
  }

  /** `fragments` holds the contents of files 1 to count of severity `s`, in order. */
  ghost predicate SeverityRead(listing: seq<string>, files: map<string, string>, s: Severity, fragments: seq<string>)
  {
    && |fragments| == CurrentFindingAmount(listing, s)
    && (forall i :: 1 <= i <= |fragments| ==> FindingFileName(s, i) in files)
    && (forall i :: 0 <= i < |fragments| ==> fragments[i] == files[FindingFileName(s, i + 1)])
  }

  /** The counts of the severities of rank at most `k` have been recorded. */
  ghost predicate AmountsUpTo(listing: seq<string>, k: nat, amounts: map<Severity, int>)
  {
    && (forall s :: s in amounts <==> Rank(s) <= k)
    && (forall s :: s in amounts ==> amounts[s] == CurrentFindingAmount(listing, s))
  }

  /** The files of the severities of rank at most `k` have been read. */
  ghost predicate FragmentsUpTo(listing: seq<string>, files: map<string, string>, k: nat,
                                fragments: map<Severity, seq<string>>)
  {
    && (forall s :: s in fragments <==> Rank(s) <= k)
    && (forall s :: s in fragments ==> SeverityRead(listing, files, s, fragments[s]))
  }

  /** What `get_finding_fragments` has built after visiting the severities of
      rank at most `k`. */
  ghost predicate VisitedUpTo(listing: seq<string>, files: map<string, string>, k: nat,
                              amounts: map<Severity, int>, fragments: map<Severity, seq<string>>)
  {
    AmountsUpTo(listing, k, amounts) && FragmentsUpTo(listing, files, k, fragments)
  }

  lemma AmountsNext(listing: seq<string>, k: nat, amounts: map<Severity, int>, s: Severity)
    requires Rank(s) == k + 1 && AmountsUpTo(listing, k, amounts)
    ensures AmountsUpTo(listing, k + 1, amounts[s := CurrentFindingAmount(listing, s)])
  {
    var next := amounts[s := CurrentFindingAmount(listing, s)];
    forall t ensures t in next <==> Rank(t) <= k + 1 {
      RankNext(k, s, t);
    }
  }

  /** The only severity of rank `k + 1` is `s`. */
  lemma RankNext(k: nat, s: Severity, t: Severity)
    requires Rank(s) == k + 1
    ensures Rank(t) <= k + 1 <==> Rank(t) <= k || t == s
  {
    if Rank(t) == k + 1 {
      assert AllSeverities[k] == t;
    }
  }

  lemma FragmentsNext(listing: seq<string>, files: map<string, string>, k: nat,
                      fragments: map<Severity, seq<string>>, s: Severity, contents: seq<string>)
    requires Rank(s) == k + 1 && FragmentsUpTo(listing, files, k, fragments)
    requires SeverityRead(listing, files, s, contents)
    ensures FragmentsUpTo(listing, files, k + 1, fragments[s := contents])
  {
    var next := fragments[s := contents];
    forall t ensures t in next <==> Rank(t) <= k + 1 {
      RankNext(k, s, t);
    }
    assert forall t :: t in next ==> SeverityRead(listing, files, t, next[t]);
  }

  lemma VisitNext(listing: seq<string>, files: map<string, string>, k: nat,
                  amounts: map<Severity, int>, fragments: map<Severity, seq<string>>,
                  s: Severity, contents: seq<string>)
    requires Rank(s) == k + 1 && VisitedUpTo(listing, files, k, amounts, fragments)
    requires SeverityRead(listing, files, s, contents)
    ensures VisitedUpTo(listing, files, k + 1, amounts[s := |contents|], fragments[s := contents])
  {
    AmountsNext(listing, k, amounts, s);
    FragmentsNext(listing, files, k, fragments, s, contents);
  }

  /** After all six severities every file of every severity has been read. */
  lemma VisitedAll(listing: seq<string>, files: map<string, string>,
                   amounts: map<Severity, int>, fragments: map<Severity, seq<string>>)
    requires VisitedUpTo(listing, files, |AllSeverities|, amounts, fragments)
    ensures AllFindingFilesPresent(listing, files)
  {
    forall s: Severity, i: int | 1 <= i <= CurrentFindingAmount(listing, s)
      ensures FindingFileName(s, i) in files
    {
      assert FragmentsUpTo(listing, files, |AllSeverities|, fragments);
      assert s in fragments && SeverityRead(listing, files, s, fragments[s]);
    }
  }

  /** What `get_finding_fragments` returns for a complete store: the total is the
      sum of the counts, each severity's count is `get_current_finding_amount`, and
      entry `i` of a severity's list is the contents of its file `i + 1`. */
  ghost predicate IsFindingStore(listing: seq<string>, files: map<string, string>, store: FindingStore)
  {
    store.total == AmountSum(listing, |AllSeverities|)
    && VisitedUpTo(listing, files, |AllSeverities|, store.amounts, store.fragments)
  }

  lemma FindingFileMissing(listing: seq<string>, files: map<string, string>, s: Severity)
    requires !forall i :: 1 <= i <= CurrentFindingAmount(listing, s) ==> FindingFileName(s, i) in files
    ensures !AllFindingFilesPresent(listing, files)
  {
  }

  /** The severity at position `k` of the ascending order has rank `k + 1`. */
  lemma RankAt(k: nat)
    requires k < |AllSeverities|
    ensures Rank(AllSeverities[k]) == k + 1
  {
  }

  /** `get_finding_fragments`: visits the severities in ascending rank, counts the
      files of each, and reads files 1 to count of each. */
  method GetFindingFragments(listing: seq<string>, files: map<string, string>) returns (r: Result<FindingStore>)
    ensures r.Ok? <==> AllFindingFilesPresent(listing, files)
    ensures r.Ok? ==> IsFindingStore(listing, files, r.value)
    ensures r.Err? ==> r.error.Raise? && r.error.exception.FileNotFound? && r.error.exception.name !in files
  {
    var total := 0;
    var amounts: map<Severity, int> := map[];
    var fragments: map<Severity, seq<string>> := map[];
    for k := 0 to |AllSeverities|
      invariant total == AmountSum(listing, k)
      invariant VisitedUpTo(listing, files, k, amounts, fragments)
    {
      var severity := AllSeverities[k];
      var amount := CurrentFindingAmount(listing, severity);
      var contents := ReadSeverityFindings(files, severity, amount);
      if contents.Err? {
        FindingFileMissing(listing, files, severity);
        return Err(contents.error);
      }
      RankAt(k);
      assert SeverityRead(listing, files, severity, contents.value);
      VisitNext(listing, files, k, amounts, fragments, severity, contents.value);
      amounts := amounts[severity := amount];
      total := total + amount;
      fragments := fragments[severity := contents.value];
    }
    VisitedAll(listing, files, amounts, fragments);
    return Ok(FindingStore(total, amounts, fragments));
  }

  // ---------------------------------------------------------------------------
  // Configuration
  // ---------------------------------------------------------------------------

  /** A JSON object read by `json.loads`: its keys in insertion order and their
      values. Values are the text the report substitutes for them. */
  datatype Config = Config(keys: seq<string>, values: map<string, string>) {
    /** Keys are listed once each, and exactly the keys with a value are listed. */
    ghost predicate Valid()
    {
      (forall i, j :: 0 <= i < j < |keys| ==> keys[i] != keys[j])
      && (forall k :: k in values <==> k in keys)
    }

    /** `config[key] = value`: a new key goes last, an existing key keeps its place. */
    function Set(key: string, value: string): (r: Config)
      requires Valid()
      ensures r.Valid()
      ensures r.values == values[key := value]
      ensures key in values ==> r.keys == keys
      ensures key !in values ==> r.keys == keys + [key]
    {
      if key in values then Config(keys, values[key := value])
      else Config(keys + [key], values[key := value])
    }
  }

  /** `json.loads` of an object with the given members in order: a repeated key
      keeps its first place and its last value. */
  function ConfigOf(members: seq<(string, string)>): (r: Config)
    ensures r.Valid()
    ensures forall k :: k in r.values <==> exists i :: 0 <= i < |members| && members[i].0 == k
    decreases |members|
  {
    if |members| == 0 then Config([], map[])
    else
      var last := members[|members| - 1];
      var prev := ConfigOf(members[..|members| - 1]);
      assert forall i :: 0 <= i < |members| - 1 ==> members[..|members| - 1][i] == members[i];
      prev.Set(last.0, last.1)
  }

  /** The key a section file sets: its name with every `.md` removed. */
  function SectionKey(file: string): string
  {
    ReplaceAll(file, ".md", "")
  }

  /** The value the `sections` directory gives `key`: the contents of the last
      listed Markdown file whose key it is. */
  function SectionValue(sections: seq<(string, string)>, key: string): Option<string>
    decreases |sections|
  {
    if |sections| == 0 then None
    else
      var (file, text) := sections[|sections| - 1];
      if EndsWith(file, ".md") && SectionKey(file) == key then Some(text)
      else SectionValue(sections[..|sections| - 1], key)
  }

  /** The config after the first `|sections|` section files are merged. */
  function MergeSections(config: Config, sections: seq<(string, string)>): (r: Config)
    requires config.Valid()
    ensures r.Valid()
    decreases |sections|
  {
    if |sections| == 0 then config
    else
      var prev := MergeSections(config, sections[..|sections| - 1]);
      var (file, text) := sections[|sections| - 1];
      if EndsWith(file, ".md") then prev.Set(SectionKey(file), text) else prev
  }

  /** Each section file adds or overrides the key that is its name without `.md`,
      the last such file winning; every other key keeps the config file's value;
      the config file's keys keep their order at the front. */
  lemma {:induction false} MergeSectionsLookup(config: Config, sections: seq<(string, string)>, key: string)
    requires config.Valid()
    ensures var r := MergeSections(config, sections);
            (SectionValue(sections, key).Some? ==> key in r.values && r.values[key] == SectionValue(sections, key).value)
            && (SectionValue(sections, key).None? ==> (key in r.values <==> key in config.values))
            && (SectionValue(sections, key).None? && key in config.values ==> r.values[key] == config.values[key])
            && |config.keys| <= |r.keys| && r.keys[..|config.keys|] == config.keys
    decreases |sections|
  {
    if |sections| > 0 {
      MergeSectionsLookup(config, sections[..|sections| - 1], key);
      var prev := MergeSections(config, sections[..|sections| - 1]);
      assert |config.keys| <= |prev.keys|;
      assert (prev.keys + [key])[..|config.keys|] == prev.keys[..|config.keys|];
      var (file, text) := sections[|sections| - 1];
      if EndsWith(file, ".md") {
        var k := SectionKey(file);
        assert (prev.keys + [k])[..|config.keys|] == prev.keys[..|config.keys|];
      }
    }
  }

  /** `read_config(json=True)`: the config file's object with each Markdown file
      of the `sections` directory, given as (name, contents) in listing order,
      merged in under its key. */
  method ReadConfig(config: Config, sections: seq<(string, string)>) returns (r: Config)
    requires config.Valid()
    ensures r == MergeSections(config, sections)
  {
    r := config;
    for i := 0 to |sections|
      invariant r == MergeSections(config, sections[..i])
    {
      var (file, text) := sections[i];
      assert sections[..i + 1][..i] == sections[..i];
      if !EndsWith(file, ".md") {
        continue;
      }
      r := r.Set(ReplaceAll(file, ".md", ""), text);
    }
    assert sections[..|sections|] == sections;
  }

  // ---------------------------------------------------------------------------
  // Other files and the report name
  // ---------------------------------------------------------------------------

  /** `read_file` after the contents are read: wrapped in `<tag>` and `</tag>`
      when a tag is given and non-empty (an empty tag is falsy), otherwise as read. */
  function WrapInTag(file: string, htmlTag: Option<string>): (r: string)
    ensures htmlTag.Some? && htmlTag.value != "" ==>
              var open, close := "<" + htmlTag.value + ">", "</" + htmlTag.value + ">";
              StartsWith(r, open) && EndsWith(r, close)
              && |open| + |close| <= |r| && r[|open|..|r| - |close|] == file
    ensures htmlTag.None? || htmlTag.value == "" ==> r == file
  {
    if htmlTag.Some? && htmlTag.value != "" then
      var open, close := "<" + htmlTag.value + ">", "</" + htmlTag.value + ">";
      var r := open + file + close;
      assert r[..|open|] == open;
      assert r[|r| - |close|..] == close;
      assert r[|open|..|r| - |close|] == file;
      r
    else file
  }

  /** `read_file(name, html_tag=...)` on a local file. */
  function ReadFile(files: map<string, string>, name: string, htmlTag: Option<string>): (r: Result<string>)
    ensures r.Ok? <==> name in files
    ensures r.Ok? ==> r.value == WrapInTag(files[name], htmlTag)
  {
    if name in files then Ok(WrapInTag(files[name], htmlTag)) else Err(Raise(FileNotFound(name)))
  }

  /** The index the report name uses: the given one, or the number of entries
      in the reports directory when none or 0 is given (both are falsy). */
  function ReportIndex(index: Option<int>, reportCount: nat): (r: int)
    ensures index.Some? && index.value != 0 ==> r == index.value
    ensures index.None? || index.value == 0 ==> r == reportCount
  {
    if index.None? || index.value == 0 then reportCount else index.value
  }

  /** `get_report_name`: `reportsPath` is `abspath(REPORTS_DIRECTORY)`, the
      reports directory resolved against the working directory. */
  function ReportName(reportsPath: string, index: Option<int>, reportCount: nat): (r: string)
    ensures var prefix := reportsPath + "/report-";
            StartsWith(r, prefix) && EndsWith(r, REPORT_EXTENSION)
            && |prefix| + |REPORT_EXTENSION| <= |r|
            && r[|prefix|..|r| - |REPORT_EXTENSION|] == FsSigIndex(ReportIndex(index, reportCount))
  {
    var prefix := reportsPath + "/report-";
    var r := prefix + FsSigIndex(ReportIndex(index, reportCount)) + REPORT_EXTENSION;
    assert r[..|prefix|] == prefix;
    assert r[|r| - |REPORT_EXTENSION|..] == REPORT_EXTENSION;
    r
  }

  /** Reports with different non-negative indexes get different names. */
  lemma ReportNameInjective(reportsPath: string, i: nat, j: nat, reportCount: nat)
    requires i != 0 && j != 0
    ensures ReportName(reportsPath, Some(i), reportCount) == ReportName(reportsPath, Some(j), reportCount) ==> i == j
  {
    FsSigIndexInjective(i, j);
  }

  /** A finding file name parses back, as an identifier, to its severity and index. */
  lemma FindingFileNameParses(s: Severity, index: nat)
    ensures var id := FolderSig(s) + "-" + FsSigIndex(index);
            ParseIdentifier("[" + id + "]") == Ok(FindingIdentifier(id, s, index))
  {
    var d := FsSigIndex(index);
    assert AllDigits(d) && |d| >= 2 && DigitsValue(d) == index;
    ParseCanonical(s, d);
  }
}
