/**
  The string handling around the Markdown renderer: turning a finding or a
  config value into HTML, and the line splitter that keeps code lines inside the
  page width. The renderer itself (mistune with a Pygments highlighter) is a
  function-typed parameter.
*/
module Markdown {
  import opened Strings
  import opened Errors

  // ---------------------------------------------------------------------------
  // create_html_from_markdown
  // ---------------------------------------------------------------------------

  /** `s` with every `c` dropped and the other characters kept in order. */
  function DeleteChar(s: string, c: char): (r: string)
    ensures c !in r && |r| <= |s|
    ensures c !in s ==> r == s
    decreases |s|
  {
    if |s| == 0 then ""
    else (if s[0] == c then "" else [s[0]]) + DeleteChar(s[1..], c)
  }

  /** Replacing a one-character string by nothing is `DeleteChar`. */
  lemma {:induction false} ReplaceAllIsDeleteChar(s: string, c: char)
    ensures ReplaceAll(s, [c], "") == DeleteChar(s, c)
    decreases |s|
  {
    if |s| > 0 {
      ReplaceAllIsDeleteChar(s[1..], c);
      assert s[..1] == [s[0]];
    }
  }

  /** `create_html_from_markdown`: the rendered fragment, with every newline
      removed when `removeNewlines` is set. */
  function CreateHtmlFromMarkdown(render: string -> string, fragment: string, removeNewlines: bool): (r: string)
    ensures removeNewlines ==> r == DeleteChar(render(fragment), '\n')
    ensures !removeNewlines ==> r == render(fragment)
  {
    var markdown := render(fragment);
    ReplaceAllIsDeleteChar(markdown, '\n');
    if removeNewlines then ReplaceAll(markdown, "\n", "") else markdown
  }

  // ---------------------------------------------------------------------------
  // split_line_if_too_long
  // ---------------------------------------------------------------------------

  /** A code line longer than this is split. */
  const LINE_LIMIT := 80
  /** The highest index the break-point loops look at (`last_line_index`). */
  const LAST_LINE_INDEX := 80
  /** Once the recursion index exceeds this, a line is returned as it is. */
  const MAX_RECURSION := 10

  /** The local `_line` while the splitter builds it: a string, or the list of
      pieces that `textwrap.wrap` returned for a line with no space and no `(`. */
  datatype Pending = Text(text: string) | Wrapped

  /** The number of leading whitespace characters (`len(line) - len(line.lstrip())`). */
  function Indentation(line: string): (r: nat)
    ensures r <= |line|
    ensures forall i :: 0 <= i < r ==> IsSpace(line[i])
    ensures r < |line| ==> !IsSpace(line[r])
  {
    |line| - |LStrip(line)|
  }

  /** The nested `new_line`: `line` cut after index `index0`, a newline, the
      indentation and the prefix, then `line` again from index `index1`. */
  function NewLine(line: string, index0: int, index1: int, indentation: int, prefix: string): string
    requires -1 <= index0 < |line| && 0 <= index1 <= |line|
  {
    line[..index0 + 1] + "\n" + Spaces(indentation) + prefix + line[index1..]
  }

  /** The lowest index in `[lo, hi)` that holds `c`. */
  function LowestIn(s: string, c: char, lo: int, hi: int): (r: Option<nat>)
    requires 0 <= lo && hi <= |s|
    ensures r.Some? ==> lo <= r.value < hi && s[r.value] == c
    ensures r.Some? ==> forall j :: lo <= j < r.value ==> s[j] != c
    ensures r.None? ==> forall j :: lo <= j < hi ==> s[j] != c
    decreases hi - lo
  {
    if lo >= hi then None
    else if s[lo] == c then Some(lo)
    else LowestIn(s, c, lo + 1, hi)
  }

  /** The highest index in `[lo, hi)` that holds `c`. */
  function HighestIn(s: string, c: char, lo: int, hi: int): (r: Option<nat>)
    requires 0 <= lo && hi <= |s|
    ensures r.Some? ==> lo <= r.value < hi && s[r.value] == c
    ensures r.Some? ==> forall j :: r.value < j < hi ==> s[j] != c
    ensures r.None? ==> forall j :: lo <= j < hi ==> s[j] != c
    decreases hi - lo
  {
    if lo >= hi then None
    else if s[hi - 1] == c then Some(hi - 1)
    else HighestIn(s, c, lo, hi - 1)
  }

  /** `_line` after a space loop that settled on `found`: broken after the space,
      which is repeated at the start of the continuation. */
  function AtSpace(line: string, found: Option<nat>, indentation: int, prefix: string, current: Pending): Pending
    requires found.Some? ==> found.value < |line|
  {
    match found
    case None => current
    case Some(i) => Text(NewLine(line, i, i, indentation, prefix))
  }

  /** The lowest `c` in `[lo, hi)` is at `i` when `c` is at `i` and not before it. */
  lemma LowestAt(s: string, c: char, lo: int, hi: int, i: int)
    requires 0 <= lo <= i < hi <= |s| && s[i] == c && forall j :: lo <= j < i ==> s[j] != c
    ensures LowestIn(s, c, lo, hi) == Some(i)
  {
    var r := LowestIn(s, c, lo, hi);
    assert r.Some?;
  }

  /** The highest `c` in `[lo, hi)` is at `i` when `c` is at `i` and not after it. */
  lemma HighestAt(s: string, c: char, lo: int, hi: int, i: int)
    requires 0 <= lo <= i < hi <= |s| && s[i] == c && forall j :: i < j < hi ==> s[j] != c
    ensures HighestIn(s, c, lo, hi) == Some(i)
  {
    var r := HighestIn(s, c, lo, hi);
    assert r.Some?;
  }

  /** No `c` at all: none in any range. */
  lemma HighestAbsent(s: string, c: char, lo: int, hi: int)
    requires 0 <= lo && hi <= |s| && c !in s
    ensures HighestIn(s, c, lo, hi) == None
  {
  }

  /** `_line` after the `(` loop that settled on `found`: broken just before the `(`. */
  function AtParen(line: string, found: Option<nat>, indentation: int, prefix: string, current: Pending): Pending
    requires found.Some? ==> found.value < |line|
  {
    match found
    case None => current
    case Some(i) => Text(NewLine(line, i - 1, i, indentation, prefix))
  }

  /** The break points of a diff line (one starting with `+` or `-`): without a
      `(`, the lowest space in `[1, 80]`; otherwise the last `(` below index 80;
      the continuation starts with the symbol and the indentation plus one. */
  function SignedCandidate(line: string, symbol: char, indentation: int): string
    requires |line| > LAST_LINE_INDEX
  {
    var prefix := [symbol] + Spaces(indentation + 1);
    var spaced := if '(' !in line then AtSpace(line, LowestIn(line, ' ', 1, LAST_LINE_INDEX + 1), 0, prefix, Text("")) else Text("");
    var broken := AtParen(line, HighestIn(line, '(', 0, LAST_LINE_INDEX), 0, prefix, spaced);
    broken.text
  }

  /** The break points of a line holding `//`: without a `(`, the highest space in
      `[1, 80]`; otherwise the last `(` below index 80; the continuation is a
      `//` comment at the line's own indentation. */
  function CommentCandidate(line: string, indentation: int): Pending
    requires |line| > LAST_LINE_INDEX
  {
    var start := if '(' !in line && ' ' !in line then Wrapped else Text("");
    var spaced := if '(' !in line then AtSpace(line, HighestIn(line, ' ', 1, LAST_LINE_INDEX + 1), indentation, "//", start) else start;
    AtParen(line, HighestIn(line, '(', 0, LAST_LINE_INDEX), indentation, "//", spaced)
  }

  /** The break points of any other line: as for a diff line, with the
      continuation indented two more than the line and no prefix. */
  function PlainCandidate(line: string, indentation: int): Pending
    requires |line| > LAST_LINE_INDEX
  {
    var start := if '(' !in line && ' ' !in line then Wrapped else Text("");
    var spaced := if '(' !in line then AtSpace(line, LowestIn(line, ' ', 1, LAST_LINE_INDEX + 1), indentation + 2, "", start) else start;
    AtParen(line, HighestIn(line, '(', 0, LAST_LINE_INDEX), indentation + 2, "", spaced)
  }

  /** The last step of the comment branch: a text holding `//` more than once
      loses every `//` followed by three spaces. */
  function CommentTidy(t: string): string
  {
    if Count(t, "//") == 1 then t else ReplaceAll(t, "//   ", "")
  }

  /** Each argument indented two more than the line, and all but the last followed
      by a comma. */
  function IndentArguments(arguments: seq<string>, indentation: int): (r: seq<string>)
    ensures |r| == |arguments|
    ensures forall k :: 0 <= k < |r| ==> r[k] == Spaces(indentation + 2) + arguments[k] + (if k < |arguments| - 1 then "," else "")
  {
    seq(|arguments|, k requires 0 <= k < |arguments| => Spaces(indentation + 2) + arguments[k] + (if k < |arguments| - 1 then "," else ""))
  }

  /** `t.split(c)[1]`: the text after the first `c`, up to the next one. */
  function SecondPiece(t: string, c: char): string
    requires c in t
  {
    ContainsCharIff(t, c);
    SplitFirst(t, [c]);
    Split(t, [c])[1]
  }

  /** The argument reflow of the last branch: when the last row is still longer
      than 80 and the text holds `,` and `(`, the arguments between the first `(`
      and the next `)` are put one per row; with no `)` at all, indexing the
      pieces after `)` raises. */
  function ReflowArguments(t: string, indentation: int): Result<string>
  {
    var rows := Split(t, "\n");
    if |rows[|rows| - 1]| > LINE_LIMIT && ',' in t && '(' in t then
      var arguments := Split(ReplaceAll(Split(SecondPiece(t, '('), ")")[0], " ", ""), ",");
      if ')' !in t then Err(Raise(IndexError))
      else
        Ok(rows[0] + "(" + Spaces(indentation + 2) + "\n" + (Join(IndentArguments(arguments, indentation), "\n") + "\n")
           + Spaces(indentation) + ")" + SecondPiece(t, ')'))
    else Ok(t)
  }

  /** The reflow fails, with an `IndexError`, exactly when it is attempted on a
      text without `)`; a text whose last row fits is returned as it is. */
  lemma ReflowOutcome(t: string, indentation: int)
    ensures ReflowArguments(t, indentation).Err? <==>
      |Split(t, "\n")[|Split(t, "\n")| - 1]| > LINE_LIMIT && ',' in t && '(' in t && ')' !in t
    ensures ReflowArguments(t, indentation).Err? ==> ReflowArguments(t, indentation).error == Raise(IndexError)
    ensures |Split(t, "\n")[|Split(t, "\n")| - 1]| <= LINE_LIMIT ==> ReflowArguments(t, indentation) == Ok(t)
  {
  }

  /** `split_line_if_too_long`: a code line of at most 80 characters, or one
      reached past the recursion bound, is kept; a longer one is broken by the
      branch its first characters select. A line for which the splitter would
      hand on the list from `textwrap.wrap` ends in an error. */
  function SplitLine(line: string, recursionIndex: int): (r: Result<string>)
    ensures |line| <= LINE_LIMIT || recursionIndex > MAX_RECURSION ==> r == Ok(line)
    decreases MAX_RECURSION + 1 - recursionIndex, 1
  {
    if |line| <= LINE_LIMIT || recursionIndex > MAX_RECURSION then Ok(line)
    else
      var depth := recursionIndex + 1;
      var indentation := Indentation(line);
      if line[0] == '+' || line[0] == '-' then SignedSplit(line, line[0], indentation, depth)
      else if Contains(line, "//") then CommentSplit(line, indentation, depth)
      else PlainSplit(line, indentation)
  }

  /** The diff-line branch; a candidate of more than 80 rows is split again. */
  function SignedSplit(line: string, symbol: char, indentation: int, depth: int): Result<string>
    requires |line| > LAST_LINE_INDEX && depth <= MAX_RECURSION + 1
    decreases MAX_RECURSION + 2 - depth, 0
  {
    var candidate := SignedCandidate(line, symbol, indentation);
    var rows := Split(candidate, "\n");
    if |rows| > LINE_LIMIT then
      var rest :- SplitLine(candidate, depth);
      Ok(rows[0] + rest)
    else Ok(candidate)
  }

  /** The comment branch; a line of more than 80 rows is split again instead. */
  function CommentSplit(line: string, indentation: int, depth: int): Result<string>
    requires |line| > LAST_LINE_INDEX && depth <= MAX_RECURSION + 1
    decreases MAX_RECURSION + 2 - depth, 0
  {
    var rows := Split(line, "\n");
    if |rows| > LINE_LIMIT then
      var rest :- SplitLine(line, depth);
      Ok(CommentTidy(rows[0] + rest))
    else
      match CommentCandidate(line, indentation)
      case Wrapped => Err(Raise(WrapResultNotAString))
      case Text(t) => Ok(CommentTidy(t))
  }

  /** The last branch: break, then reflow the arguments. */
  function PlainSplit(line: string, indentation: int): Result<string>
    requires |line| > LAST_LINE_INDEX
  {
    match PlainCandidate(line, indentation)
    case Wrapped => Err(Raise(WrapResultNotAString))
    case Text(t) => ReflowArguments(t, indentation)
  }

  /** The downward loop over indices 80 to 1 that rewrites `_line` at every
      space: the last rewrite, at the lowest space, is what remains. */
  method ScanSpacesAll(line: string, indentation: int, prefix: string, current: Pending) returns (r: Pending)
    requires |line| > LAST_LINE_INDEX
    ensures r == AtSpace(line, LowestIn(line, ' ', 1, LAST_LINE_INDEX + 1), indentation, prefix, current)
  {
    r := current;
    var index := LAST_LINE_INDEX;
    while index > 0
      invariant 0 <= index <= LAST_LINE_INDEX
      invariant r == AtSpace(line, LowestIn(line, ' ', index + 1, LAST_LINE_INDEX + 1), indentation, prefix, current)
      decreases index
    {
      if line[index] == ' ' {
        r := Text(NewLine(line, index, index, indentation, prefix));
      }
      index := index - 1;
    }
  }

  /** The same downward loop stopping at the first space it meets, the highest. */
  method ScanSpacesFirst(line: string, indentation: int, prefix: string, current: Pending) returns (r: Pending)
    requires |line| > LAST_LINE_INDEX
    ensures r == AtSpace(line, HighestIn(line, ' ', 1, LAST_LINE_INDEX + 1), indentation, prefix, current)
  {
    r := current;
    var index := LAST_LINE_INDEX;
    while index > 0
      invariant 0 <= index <= LAST_LINE_INDEX
      invariant HighestIn(line, ' ', 1, index + 1) == HighestIn(line, ' ', 1, LAST_LINE_INDEX + 1)
      invariant r == current
      decreases index
    {
      if line[index] == ' ' {
        r := Text(NewLine(line, index, index, indentation, prefix));
        break;
      }
      index := index - 1;
    }
  }

  /** The upward loop over indices 0 to 79 that rewrites `_line` before every
      `(`: the last `(` below index 80 decides. */
  method ScanParens(line: string, indentation: int, prefix: string, current: Pending) returns (r: Pending)
    requires |line| > LAST_LINE_INDEX
    ensures r == AtParen(line, HighestIn(line, '(', 0, LAST_LINE_INDEX), indentation, prefix, current)
  {
    r := current;
    for index := 0 to LAST_LINE_INDEX
      invariant r == AtParen(line, HighestIn(line, '(', 0, index), indentation, prefix, current)
    {
      if line[index] == '(' {
        r := Text(NewLine(line, index - 1, index, indentation, prefix));
      }
    }
  }

  /** The loop that indents each argument and appends the commas. */
  method IndentEach(arguments: seq<string>, indentation: int) returns (r: seq<string>)
    ensures r == IndentArguments(arguments, indentation)
  {
    r := arguments;
    for index := 0 to |r|
      invariant |r| == |arguments|
      invariant forall k :: 0 <= k < index ==> r[k] == IndentArguments(arguments, indentation)[k]
      invariant forall k :: index <= k < |r| ==> r[k] == arguments[k]
    {
      r := r[index := Spaces(indentation + 2) + r[index]];
      r := r[index := if |r| - 1 > index then r[index] + "," else r[index]];
    }
  }

  /** `split_line_if_too_long` as the source writes it. */
  method SplitLineIfTooLong(line: string, recursionIndex: int) returns (r: Result<string>)
    ensures r == SplitLine(line, recursionIndex)
    decreases MAX_RECURSION + 1 - recursionIndex, 1
  {
    if |line| <= LINE_LIMIT || recursionIndex > MAX_RECURSION {
      return Ok(line);
    }
    var depth := recursionIndex + 1;
    var indentation := Indentation(line);
    var symbols := ['+', '-'];
    for k := 0 to |symbols|
      invariant forall j :: 0 <= j < k ==> line[0] != symbols[j]
    {
      if line[0] == symbols[k] {
        assert symbols[k] == '+' || symbols[k] == '-';
        SignedIndentation(line);
        SplitLineSigned(line, recursionIndex);
        r := SignedBranch(line, symbols[k], indentation, depth);
        return;
      }
    }
    assert line[0] != '+' && line[0] != '-' by {
      assert symbols[0] == '+' && symbols[1] == '-';
    }
    if Contains(line, "//") {
      SplitLineComment(line, recursionIndex);
      r := CommentBranch(line, indentation, depth);
      return;
    }
    SplitLinePlain(line, recursionIndex);
    r := PlainBranch(line, indentation);
  }

  method SignedBranch(line: string, symbol: char, indentation: int, depth: int) returns (r: Result<string>)
    requires |line| > LAST_LINE_INDEX && depth <= MAX_RECURSION + 1
    ensures r == SignedSplit(line, symbol, indentation, depth)
    decreases MAX_RECURSION + 2 - depth, 0
  {
    var prefix := [symbol] + Spaces(indentation + 1);
    var pending := Text("");
    if '(' !in line {
      pending := ScanSpacesAll(line, 0, prefix, pending);
    }
    pending := ScanParens(line, 0, prefix, pending);
    var candidate := pending.text;
    var rows := Split(candidate, "\n");
    if |rows| > LINE_LIMIT {
      var rest := SplitLineIfTooLong(candidate, depth);
      if rest.Err? {
        return Err(rest.error);
      }
      candidate := rows[0] + rest.value;
    }
    r := Ok(candidate);
  }

  method CommentBranch(line: string, indentation: int, depth: int) returns (r: Result<string>)
    requires |line| > LAST_LINE_INDEX && depth <= MAX_RECURSION + 1
    ensures r == CommentSplit(line, indentation, depth)
    decreases MAX_RECURSION + 2 - depth, 0
  {
    var pending := Text("");
    if '(' !in line && ' ' !in line {
      pending := Wrapped;
    }
    if '(' !in line {
      pending := ScanSpacesFirst(line, indentation, "//", pending);
    }
    pending := ScanParens(line, indentation, "//", pending);
    var rows := Split(line, "\n");
    if |rows| > LINE_LIMIT {
      var rest := SplitLineIfTooLong(line, depth);
      if rest.Err? {
        return Err(rest.error);
      }
      pending := Text(rows[0] + rest.value);
    }
    if pending.Wrapped? {
      return Err(Raise(WrapResultNotAString));
    }
    var text := pending.text;
    if Count(text, "//") != 1 {
      text := ReplaceAll(text, "//   ", "");
    }
    r := Ok(text);
  }

  method PlainBranch(line: string, indentation: int) returns (r: Result<string>)
    requires |line| > LAST_LINE_INDEX
    ensures r == PlainSplit(line, indentation)
  {
    var pending := Text("");
    if '(' !in line && ' ' !in line {
      pending := Wrapped;
    }
    if '(' !in line {
      pending := ScanSpacesAll(line, indentation + 2, "", pending);
    }
    pending := ScanParens(line, indentation + 2, "", pending);
    if pending.Wrapped? {
      return Err(Raise(WrapResultNotAString));
    }
    r := ReflowLongArguments(pending.text, indentation);
  }

  method ReflowLongArguments(text: string, indentation: int) returns (r: Result<string>)
    ensures r == ReflowArguments(text, indentation)
  {
    var rows := Split(text, "\n");
    if |rows[|rows| - 1]| > LINE_LIMIT && ',' in text && '(' in text {
      var arguments := Split(ReplaceAll(Split(SecondPiece(text, '('), ")")[0], " ", ""), ",");
      if ')' !in text {
        return Err(Raise(IndexError));
      }
      var after := SecondPiece(text, ')');
      arguments := IndentEach(arguments, indentation);
      r := Ok(rows[0] + "(" + Spaces(indentation + 2) + "\n" + (Join(arguments, "\n") + "\n")
              + Spaces(indentation) + ")" + after);
    } else {
      r := Ok(text);
    }
  }

  // ---------------------------------------------------------------------------
  // HighlightRenderer.block_code
  // ---------------------------------------------------------------------------

  /** The lexer used for a code block whose fence names no language. */
  const DEFAULT_LANGUAGE := "solidity"
  const CODE_BORDER_OPEN := "<div class=\"code-border no-underline-heading\">"
  const CODE_BORDER_CLOSE := "</div>"

  /** The language a code block is highlighted as: the fence's info string, or
      the default when that is missing or empty. */
  function Language(info: Option<string>): string
  {
    if info.None? || info.value == "" then DEFAULT_LANGUAGE else info.value
  }

  /** Every line passed through `split` in order; the first line that fails stops
      the loop with its error. */
  function MapLines(split: string -> Result<string>, lines: seq<string>): (r: Result<seq<string>>)
    ensures r.Ok? ==> |r.value| == |lines|
    ensures r.Ok? ==> forall k :: 0 <= k < |lines| ==> split(lines[k]) == Ok(r.value[k])
    decreases |lines|
  {
    if |lines| == 0 then Ok([])
    else
      var init :- MapLines(split, lines[..|lines| - 1]);
      var last :- split(lines[|lines| - 1]);
      Ok(init + [last])
  }

  /** The splitter as `block_code` calls it, with the recursion index at 0. */
  function SplitCodeLine(line: string): Result<string>
  {
    SplitLine(line, 0)
  }

  /** `block_code`: the code split into lines, each line split when too long, the
      lines joined again and highlighted, inside the bordered `div`. The
      highlighter (Pygments with the extended default style) is a parameter that
      takes the code and the language name. */
  function BlockCode(code: string, info: Option<string>, highlight: (string, string) -> string): Result<string>
  {
    var lines :- MapLines(SplitCodeLine, Split(code, "\n"));
    Ok(CODE_BORDER_OPEN + highlight(Join(lines, "\n"), Language(info)) + CODE_BORDER_CLOSE)
  }

  /** Once a prefix of the lines fails, every longer prefix fails the same way. */
  lemma {:induction false} MapLinesErrorStays(split: string -> Result<string>, lines: seq<string>, n: nat, m: nat)
    requires n <= m <= |lines|
    requires MapLines(split, lines[..n]).Err?
    ensures MapLines(split, lines[..m]) == MapLines(split, lines[..n])
    decreases m - n
  {
    if m > n {
      MapLinesErrorStays(split, lines, n, m - 1);
      assert lines[..m][..m - 1] == lines[..m - 1];
    }
  }

  /** One more line mapped: the prefix's result extended by the line's. */
  lemma MapLinesStep(split: string -> Result<string>, lines: seq<string>, n: nat, done: seq<string>, last: string)
    requires n < |lines| && MapLines(split, lines[..n]) == Ok(done) && split(lines[n]) == Ok(last)
    ensures MapLines(split, lines[..n + 1]) == Ok(done + [last])
  {
    assert lines[..n + 1][..n] == lines[..n];
  }

  /** A failing line fails the whole mapping. */
  lemma MapLinesStepFails(split: string -> Result<string>, lines: seq<string>, n: nat, done: seq<string>)
    requires n < |lines| && MapLines(split, lines[..n]) == Ok(done) && split(lines[n]).Err?
    ensures MapLines(split, lines) == Err(split(lines[n]).error)
  {
    assert lines[..n + 1][..n] == lines[..n];
    MapLinesErrorStays(split, lines, n + 1, |lines|);
    assert lines[..|lines|] == lines;
  }

  /** The loop of `block_code` that rewrites each line of the list in place. */
  method SplitEachLine(code: seq<string>) returns (r: Result<seq<string>>)
    ensures r == MapLines(SplitCodeLine, code)
  {
    var lines := code;
    for index := 0 to |lines|
      invariant |lines| == |code|
      invariant MapLines(SplitCodeLine, code[..index]) == Ok(lines[..index])
      invariant lines[index..] == code[index..]
    {
      var line := SplitLineIfTooLong(lines[index], 0);
      assert lines[index] == code[index];
      if line.Err? {
        MapLinesStepFails(SplitCodeLine, code, index, lines[..index]);
        return Err(line.error);
      }
      ghost var done := lines[..index];
      MapLinesStep(SplitCodeLine, code, index, done, line.value);
      lines := lines[index := line.value];
      assert lines[..index + 1] == done + [line.value];
    }
    assert code[..|code|] == code && lines[..|lines|] == lines;
    r := Ok(lines);
  }

  /** `block_code` as the source writes it. */
  method RenderBlockCode(code: string, info: Option<string>, highlight: (string, string) -> string) returns (r: Result<string>)
    ensures r == BlockCode(code, info, highlight)
  {
    var language := info;
    if language.None? || language.value == "" {
      language := Some(DEFAULT_LANGUAGE);
    }
    var lines := SplitEachLine(Split(code, "\n"));
    if lines.Err? {
      return Err(lines.error);
    }
    r := Ok(CODE_BORDER_OPEN + highlight(Join(lines.value, "\n"), language.value) + CODE_BORDER_CLOSE);
  }

  // ---------------------------------------------------------------------------
  // Properties of the splitter
  // ---------------------------------------------------------------------------

  /** Breaking before index `i` loses nothing: the line's text before `i`, the
      row break, the indentation and prefix, then the line's text from `i`. */
  lemma {:induction false} BreakBeforeKeepsLine(line: string, i: nat, indentation: nat, prefix: string)
    requires i < |line|
    ensures var r := NewLine(line, i - 1, i, indentation, prefix);
      |r| == |line| + 1 + indentation + |prefix|
      && r[..i] == line[..i] && r[i] == '\n'
      && r[i + 1..i + 1 + indentation + |prefix|] == Spaces(indentation) + prefix
      && r[i + 1 + indentation + |prefix|..] == line[i..]
  {
    var r := NewLine(line, i - 1, i, indentation, prefix);
    assert r == line[..i] + "\n" + (Spaces(indentation) + prefix) + line[i..];
  }

  /** Breaking at a space keeps the space on both rows: the first row ends with
      it and the continuation resumes with it. */
  lemma {:induction false} BreakAtSpaceRepeatsIt(line: string, i: nat, indentation: nat, prefix: string)
    requires i < |line|
    ensures var r := NewLine(line, i, i, indentation, prefix);
      |r| == |line| + 2 + indentation + |prefix|
      && r[..i + 1] == line[..i + 1] && r[i + 1] == '\n'
      && r[i + 2..i + 2 + indentation + |prefix|] == Spaces(indentation) + prefix
      && r[i + 2 + indentation + |prefix|..] == line[i..]
      && r[i] == line[i] == r[i + 2 + indentation + |prefix|]
  {
    var r := NewLine(line, i, i, indentation, prefix);
    assert r == line[..i + 1] + "\n" + (Spaces(indentation) + prefix) + line[i..];
  }

  /** A line without newlines, broken once, has exactly two rows. */
  lemma NewLineRows(line: string, i0: int, i1: int, indentation: int, prefix: string)
    requires -1 <= i0 < |line| && 0 <= i1 <= |line|
    requires '\n' !in line && '\n' !in prefix
    ensures Split(NewLine(line, i0, i1, indentation, prefix), "\n")
         == [line[..i0 + 1], Spaces(indentation) + prefix + line[i1..]]
  {
    var b := Spaces(indentation) + prefix + line[i1..];
    assert NewLine(line, i0, i1, indentation, prefix) == line[..i0 + 1] + ['\n'] + b;
    SplitAroundChar(line[..i0 + 1], '\n', b);
  }

  /** A diff line's indentation is zero. */
  lemma SignedIndentation(line: string)
    requires |line| > 0 && (line[0] == '+' || line[0] == '-')
    ensures Indentation(line) == 0
  {
  }

  /** A long diff line takes the diff-line branch, at indentation zero. */
  lemma SplitLineSigned(line: string, recursionIndex: int)
    requires LINE_LIMIT < |line| && recursionIndex <= MAX_RECURSION
    requires line[0] == '+' || line[0] == '-'
    ensures SplitLine(line, recursionIndex) == SignedSplit(line, line[0], 0, recursionIndex + 1)
  {
    SignedIndentation(line);
  }

  /** A long line holding `//` and not starting with `+` or `-` takes the
      comment branch. */
  lemma SplitLineComment(line: string, recursionIndex: int)
    requires LINE_LIMIT < |line| && recursionIndex <= MAX_RECURSION
    requires line[0] != '+' && line[0] != '-' && Contains(line, "//")
    ensures SplitLine(line, recursionIndex) == CommentSplit(line, Indentation(line), recursionIndex + 1)
  {
  }

  /** Any other long line takes the last branch. */
  lemma SplitLinePlain(line: string, recursionIndex: int)
    requires LINE_LIMIT < |line| && recursionIndex <= MAX_RECURSION
    requires line[0] != '+' && line[0] != '-' && !Contains(line, "//")
    ensures SplitLine(line, recursionIndex) == PlainSplit(line, Indentation(line))
  {
  }

  /** A one-row diff-line candidate is the result. */
  lemma {:induction false} SignedOneRow(line: string, recursionIndex: int)
    requires LINE_LIMIT < |line| && recursionIndex <= MAX_RECURSION && '\n' !in line
    requires line[0] == '+' || line[0] == '-'
    ensures SplitLine(line, recursionIndex) == Ok(SignedCandidate(line, line[0], 0))
  {
    SignedIndentation(line);
    SplitLineSigned(line, recursionIndex);
    var candidate := SignedCandidate(line, line[0], 0);
    var prefix := [line[0]] + Spaces(1);
    if candidate == "" {
      SplitNoChar(candidate, '\n');
    } else if '(' in line {
      var i := HighestIn(line, '(', 0, LAST_LINE_INDEX).value;
      NewLineRows(line, i - 1, i, 0, prefix);
    } else {
      var i := LowestIn(line, ' ', 1, LAST_LINE_INDEX + 1).value;
      NewLineRows(line, i, i, 0, prefix);
    }
  }

  /** A long diff line with no `(` is broken after its lowest space in [1, 80];
      the continuation starts with the line's symbol and one space. */
  lemma SignedLineBreaksAtLowestSpace(line: string, recursionIndex: int, i: nat)
    requires LINE_LIMIT < |line| && recursionIndex <= MAX_RECURSION && '\n' !in line
    requires line[0] == '+' || line[0] == '-'
    requires '(' !in line
    requires 1 <= i <= LAST_LINE_INDEX && line[i] == ' ' && forall j :: 1 <= j < i ==> line[j] != ' '
    ensures SplitLine(line, recursionIndex) == Ok(NewLine(line, i, i, 0, [line[0], ' ']))
  {
    SignedOneRow(line, recursionIndex);
    LowestAt(line, ' ', 1, LAST_LINE_INDEX + 1, i);
    HighestAbsent(line, '(', 0, LAST_LINE_INDEX);
    assert [line[0]] + Spaces(1) == [line[0], ' '];
  }

  /** A long diff line holding `(` is broken just before its last `(` below
      index 80. */
  lemma SignedLineBreaksBeforeLastParen(line: string, recursionIndex: int, i: nat)
    requires LINE_LIMIT < |line| && recursionIndex <= MAX_RECURSION && '\n' !in line
    requires line[0] == '+' || line[0] == '-'
    requires i < LAST_LINE_INDEX && line[i] == '(' && forall j :: i < j < LAST_LINE_INDEX ==> line[j] != '('
    ensures SplitLine(line, recursionIndex) == Ok(NewLine(line, i - 1, i, 0, [line[0], ' ']))
  {
    SignedOneRow(line, recursionIndex);
    HighestAt(line, '(', 0, LAST_LINE_INDEX, i);
    assert [line[0]] + Spaces(1) == [line[0], ' '];
  }

  /** A long diff line whose only `(` lie at index 80 or later, or which has no
      `(` and no space in [1, 80], becomes the empty string. */
  lemma SignedLineWithoutBreakPoint(line: string, recursionIndex: int)
    requires LINE_LIMIT < |line| && recursionIndex <= MAX_RECURSION && '\n' !in line
    requires line[0] == '+' || line[0] == '-'
    requires forall j :: 0 <= j < LAST_LINE_INDEX ==> line[j] != '('
    requires '(' !in line ==> forall j :: 1 <= j <= LAST_LINE_INDEX ==> line[j] != ' '
    ensures SplitLine(line, recursionIndex) == Ok("")
  {
    SignedOneRow(line, recursionIndex);
  }

  /** A long one-row comment line ends as its candidate, tidied. */
  lemma {:induction false} CommentOneRow(line: string, recursionIndex: int)
    requires LINE_LIMIT < |line| && recursionIndex <= MAX_RECURSION && '\n' !in line
    requires line[0] != '+' && line[0] != '-' && Contains(line, "//")
    ensures SplitLine(line, recursionIndex) == match CommentCandidate(line, Indentation(line))
      case Wrapped => Err(Raise(WrapResultNotAString))
      case Text(t) => Ok(CommentTidy(t))
  {
    SplitLineComment(line, recursionIndex);
    SplitNoChar(line, '\n');
  }

  /** A long comment line with no `(` is broken after its highest space in
      [1, 80]; the continuation is a `//` comment at the line's indentation. */
  lemma CommentLineBreaksAtHighestSpace(line: string, recursionIndex: int, i: nat)
    requires LINE_LIMIT < |line| && recursionIndex <= MAX_RECURSION && '\n' !in line
    requires line[0] != '+' && line[0] != '-' && Contains(line, "//")
    requires '(' !in line
    requires 1 <= i <= LAST_LINE_INDEX && line[i] == ' ' && forall j :: i < j <= LAST_LINE_INDEX ==> line[j] != ' '
    ensures SplitLine(line, recursionIndex) == Ok(CommentTidy(NewLine(line, i, i, Indentation(line), "//")))
  {
    CommentOneRow(line, recursionIndex);
    HighestAt(line, ' ', 1, LAST_LINE_INDEX + 1, i);
    HighestAbsent(line, '(', 0, LAST_LINE_INDEX);
  }

  /** A long comment line holding `(` is broken just before its last `(` below
      index 80. */
  lemma CommentLineBreaksBeforeLastParen(line: string, recursionIndex: int, i: nat)
    requires LINE_LIMIT < |line| && recursionIndex <= MAX_RECURSION && '\n' !in line
    requires line[0] != '+' && line[0] != '-' && Contains(line, "//")
    requires i < LAST_LINE_INDEX && line[i] == '(' && forall j :: i < j < LAST_LINE_INDEX ==> line[j] != '('
    ensures SplitLine(line, recursionIndex) == Ok(CommentTidy(NewLine(line, i - 1, i, Indentation(line), "//")))
  {
    CommentOneRow(line, recursionIndex);
    HighestAt(line, '(', 0, LAST_LINE_INDEX, i);
  }

  /** The tidy step leaves the empty string empty. */
  lemma CommentTidyEmpty()
    ensures CommentTidy("") == ""
  {
    SplitNoChar("", '/');
    assert Split("", "//") == [""];
  }

  /** A long comment line whose only `(` lie at index 80 or later, or which has
      spaces but none in [1, 80] and no `(`, becomes the empty string. */
  lemma CommentLineWithoutBreakPoint(line: string, recursionIndex: int)
    requires LINE_LIMIT < |line| && recursionIndex <= MAX_RECURSION && '\n' !in line
    requires line[0] != '+' && line[0] != '-' && Contains(line, "//")
    requires forall j :: 0 <= j < LAST_LINE_INDEX ==> line[j] != '('
    requires '(' !in line ==> ' ' in line && forall j :: 1 <= j <= LAST_LINE_INDEX ==> line[j] != ' '
    ensures SplitLine(line, recursionIndex) == Ok("")
  {
    CommentOneRow(line, recursionIndex);
    CommentTidyEmpty();
  }

  /** A long line with no space and no `(` that is not a diff line makes the
      splitter hand on the list from `textwrap.wrap`, which fails. */
  lemma {:induction false} UnbreakableLineFails(line: string, recursionIndex: int)
    requires LINE_LIMIT < |line| && recursionIndex <= MAX_RECURSION && '\n' !in line
    requires line[0] != '+' && line[0] != '-'
    requires '(' !in line && ' ' !in line
    ensures SplitLine(line, recursionIndex) == Err(Raise(WrapResultNotAString))
  {
    if Contains(line, "//") {
      CommentOneRow(line, recursionIndex);
    } else {
      SplitLinePlain(line, recursionIndex);
    }
  }

  /** A long plain line with no `(` is broken after its lowest space in [1, 80],
      the continuation indented two more than the line; with no `(` there is
      nothing to reflow. */
  lemma {:induction false} PlainLineBreaksAtLowestSpace(line: string, recursionIndex: int, i: nat)
    requires LINE_LIMIT < |line| && recursionIndex <= MAX_RECURSION && '\n' !in line
    requires line[0] != '+' && line[0] != '-' && !Contains(line, "//")
    requires '(' !in line
    requires 1 <= i <= LAST_LINE_INDEX && line[i] == ' ' && forall j :: 1 <= j < i ==> line[j] != ' '
    ensures SplitLine(line, recursionIndex) == Ok(NewLine(line, i, i, Indentation(line) + 2, ""))
  {
    SplitLinePlain(line, recursionIndex);
    var indentation := Indentation(line);
    PlainCandidateAtSpace(line, indentation, i);
    BreakKeepsAbsent(line, i, indentation + 2, '(');
    ReflowWithoutParen(NewLine(line, i, i, indentation + 2, ""), indentation);
  }

  /** Without a `(`, the last branch's candidate breaks at the lowest space. */
  lemma PlainCandidateAtSpace(line: string, indentation: int, i: nat)
    requires LINE_LIMIT < |line| && '(' !in line
    requires 1 <= i <= LAST_LINE_INDEX && line[i] == ' ' && forall j :: 1 <= j < i ==> line[j] != ' '
    ensures PlainCandidate(line, indentation) == Text(NewLine(line, i, i, indentation + 2, ""))
  {
    LowestAt(line, ' ', 1, LAST_LINE_INDEX + 1, i);
    HighestAbsent(line, '(', 0, LAST_LINE_INDEX);
  }

  /** Breaking at a space adds no character other than a newline and spaces. */
  lemma BreakKeepsAbsent(line: string, i: nat, indentation: int, c: char)
    requires i < |line| && c !in line && c != '\n' && c != ' '
    ensures c !in NewLine(line, i, i, indentation, "")
  {
    var t := NewLine(line, i, i, indentation, "");
    assert t == line[..i + 1] + "\n" + Spaces(indentation) + line[i..];
    assert c !in line[..i + 1] && c !in line[i..];
  }

  /** A text without `(` is not reflowed. */
  lemma ReflowWithoutParen(t: string, indentation: int)
    requires '(' !in t
    ensures ReflowArguments(t, indentation) == Ok(t)
  {
  }

  /** A long plain line holding `(` is broken just before its last `(` below
      index 80, the continuation indented two more than the line, and then its
      arguments are reflowed. */
  lemma {:induction false} PlainLineBreaksBeforeLastParen(line: string, recursionIndex: int, i: nat)
    requires LINE_LIMIT < |line| && recursionIndex <= MAX_RECURSION
    requires line[0] != '+' && line[0] != '-' && !Contains(line, "//")
    requires i < LAST_LINE_INDEX && line[i] == '(' && forall j :: i < j < LAST_LINE_INDEX ==> line[j] != '('
    ensures SplitLine(line, recursionIndex) == ReflowArguments(NewLine(line, i - 1, i, Indentation(line) + 2, ""), Indentation(line))
  {
    SplitLinePlain(line, recursionIndex);
    HighestAt(line, '(', 0, LAST_LINE_INDEX, i);
  }

  /** After a break before the `(` at `i` of a line without newlines, the reflow
      fails exactly when the continuation row is longer than 80, the line holds
      `,`, and it holds no `)`. */
  lemma {:induction false} ReflowAfterParenBreak(line: string, i: nat, indentation: nat)
    requires i < |line| && line[i] == '(' && '\n' !in line
    ensures ReflowArguments(NewLine(line, i - 1, i, indentation + 2, ""), indentation).Err? <==>
      indentation + 2 + |line| - i > LINE_LIMIT && ',' in line && ')' !in line
  {
    var t := NewLine(line, i - 1, i, indentation + 2, "");
    NewLineRows(line, i - 1, i, indentation + 2, "");
    ReflowOutcome(t, indentation);
    BreakBeforeChars(line, i, indentation + 2);
  }

  /** A break before index `i` adds only a newline and spaces to the line. */
  lemma {:induction false} BreakBeforeChars(line: string, i: nat, indentation: nat)
    requires i < |line|
    ensures line[i] in NewLine(line, i - 1, i, indentation, "")
    ensures forall c :: c != '\n' && c != ' ' ==> (c in NewLine(line, i - 1, i, indentation, "") <==> c in line)
  {
    var pad := Spaces(indentation);
    var t := NewLine(line, i - 1, i, indentation, "");
    assert t == line[..i] + "\n" + pad + line[i..];
    assert line == line[..i] + line[i..];
    assert t[i + 1 + |pad|] == line[i];
  }

  /** A long plain line whose only `(` lie at index 80 or later, or which has
      spaces but none in [1, 80] and no `(`, becomes the empty string. */
  lemma {:induction false} PlainLineWithoutBreakPoint(line: string, recursionIndex: int)
    requires LINE_LIMIT < |line| && recursionIndex <= MAX_RECURSION && '\n' !in line
    requires line[0] != '+' && line[0] != '-' && !Contains(line, "//")
    requires forall j :: 0 <= j < LAST_LINE_INDEX ==> line[j] != '('
    requires '(' !in line ==> ' ' in line && forall j :: 1 <= j <= LAST_LINE_INDEX ==> line[j] != ' '
    ensures SplitLine(line, recursionIndex) == Ok("")
  {
    SplitLinePlain(line, recursionIndex);
    SplitNoChar("", '\n');
  }

  // ---------------------------------------------------------------------------
  // Properties of block_code
  // ---------------------------------------------------------------------------

  /** Mapping a function that keeps every line keeps the lines. */
  lemma {:induction false} MapLinesIdentity(split: string -> Result<string>, lines: seq<string>)
    requires forall k :: 0 <= k < |lines| ==> split(lines[k]) == Ok(lines[k])
    ensures MapLines(split, lines) == Ok(lines)
    decreases |lines|
  {
    if |lines| > 0 {
      var init := lines[..|lines| - 1];
      assert forall k :: 0 <= k < |init| ==> split(init[k]) == Ok(init[k]);
      MapLinesIdentity(split, init);
      assert split(lines[|lines| - 1]) == Ok(lines[|lines| - 1]);
      assert init + [lines[|lines| - 1]] == lines;
    }
  }

  /** The mapping fails exactly when one of the lines fails. */
  lemma {:induction false} MapLinesFails(split: string -> Result<string>, lines: seq<string>)
    ensures MapLines(split, lines).Err? <==> exists k :: 0 <= k < |lines| && split(lines[k]).Err?
    decreases |lines|
  {
    if |lines| > 0 {
      var init := lines[..|lines| - 1];
      MapLinesFails(split, init);
      if exists k :: 0 <= k < |init| && split(init[k]).Err? {
        var k :| 0 <= k < |init| && split(init[k]).Err?;
        assert split(lines[k]).Err?;
      }
      if exists k :: 0 <= k < |lines| && split(lines[k]).Err? {
        var k :| 0 <= k < |lines| && split(lines[k]).Err?;
        if k < |init| {
          assert split(init[k]).Err?;
        }
      }
    }
  }

  /** A code block fails exactly when one of its lines fails to split. */
  lemma BlockCodeFails(code: string, info: Option<string>, highlight: (string, string) -> string)
    ensures BlockCode(code, info, highlight).Err? <==>
      exists k :: 0 <= k < |Split(code, "\n")| && SplitLine(Split(code, "\n")[k], 0).Err?
  {
    var lines := Split(code, "\n");
    var split := SplitCodeLine;
    if BlockCode(code, info, highlight).Err? {
      MapLinesFails(split, lines);
      var k :| 0 <= k < |lines| && split(lines[k]).Err?;
      assert SplitLine(lines[k], 0).Err?;
      assert exists k :: 0 <= k < |Split(code, "\n")| && SplitLine(Split(code, "\n")[k], 0).Err?;
    } else {
      var mapped := MapLines(split, lines);
      forall k | 0 <= k < |lines|
        ensures SplitLine(lines[k], 0).Ok?
      {
        assert split(lines[k]) == Ok(mapped.value[k]);
      }
      assert !exists k :: 0 <= k < |Split(code, "\n")| && SplitLine(Split(code, "\n")[k], 0).Err?;
    }
  }

  /** A code block whose lines all fit is highlighted unchanged, as the language
      its fence names, or as Solidity when it names none. */
  lemma {:induction false} BlockCodeShortLines(code: string, info: Option<string>, highlight: (string, string) -> string)
    requires forall k :: 0 <= k < |Split(code, "\n")| ==> |Split(code, "\n")[k]| <= LINE_LIMIT
    ensures BlockCode(code, info, highlight)
         == Ok(CODE_BORDER_OPEN + highlight(code, if info.None? || info == Some("") then "solidity" else info.value) + CODE_BORDER_CLOSE)
  {
    ShortCodeLinesKept(Split(code, "\n"));
    JoinSplit(code, "\n");
    BlockCodeOfKeptLines(code, info, highlight);
  }

  /** Lines of at most 80 characters all map to themselves. */
  lemma ShortCodeLinesKept(lines: seq<string>)
    requires forall k :: 0 <= k < |lines| ==> |lines[k]| <= LINE_LIMIT
    ensures MapLines(SplitCodeLine, lines) == Ok(lines)
  {
    forall k | 0 <= k < |lines| ensures SplitCodeLine(lines[k]) == Ok(lines[k]) {
      ShortCodeLineKept(lines[k]);
    }
    MapLinesIdentity(SplitCodeLine, lines);
  }

  /** When every line is kept, the block is the highlighted code itself. */
  lemma BlockCodeOfKeptLines(code: string, info: Option<string>, highlight: (string, string) -> string)
    requires MapLines(SplitCodeLine, Split(code, "\n")) == Ok(Split(code, "\n"))
    requires Join(Split(code, "\n"), "\n") == code
    ensures BlockCode(code, info, highlight) == Ok(CODE_BORDER_OPEN + highlight(code, Language(info)) + CODE_BORDER_CLOSE)
  {
  }

  /** A code line of at most 80 characters is kept as it is. */
  lemma ShortCodeLineKept(line: string)
    requires |line| <= LINE_LIMIT
    ensures SplitCodeLine(line) == Ok(line)
  {
  }
}
