/**
  The page-number stage of the report (`create_report_with_page_numbers_and_legend`),
  over the text of each page of the rendered PDF:
    1. the blank pages are deleted in one batch;
    2. every page after the cover is stamped with its 0-based number and its
       text searched for the section headings; a heading resolves to the page
       on which it is seen for the second time (the third for `[id]` headings);
    3. for every resolved heading, the first page holding its page token gets
       the first hit of that token replaced by the heading's page number.
  Text extraction after stamping is the function `extract` of a page's text
  and its footer; the PDF search is substring search.
*/
module Indexing {
  import opened Strings
  import opened Typings
  import opened FindingParser
  import opened Legend
  import opened Report

  // ---------------------------------------------------------------------------
  // Blank pages
  // ---------------------------------------------------------------------------

  /** The indexes of the first `n` pages whose text is empty, ascending. */
  function BlankIndexes(pages: seq<string>, n: nat): (r: seq<nat>)
    requires n <= |pages|
    ensures forall i :: 0 <= i < n ==> (i in r <==> pages[i] == "")
    ensures forall i :: i in r ==> i < n
  {
    if n == 0 then []
    else BlankIndexes(pages, n - 1) + (if pages[n - 1] == "" then [n - 1] else [])
  }

  /** The first `n` pages without the blank ones, in order. */
  function NonBlank(pages: seq<string>, n: nat): (r: seq<string>)
    requires n <= |pages|
  {
    if n == 0 then []
    else NonBlank(pages, n - 1) + (if pages[n - 1] == "" then [] else [pages[n - 1]])
  }

  /** What deletion keeps: exactly the non-blank pages, one fewer per blank one. */
  lemma {:induction false} NonBlankPages(pages: seq<string>, n: nat)
    requires n <= |pages|
    ensures forall p :: p in NonBlank(pages, n) <==> p in pages[..n] && p != ""
    ensures |NonBlank(pages, n)| + |BlankIndexes(pages, n)| == n
  {
    if n > 0 {
      NonBlankPages(pages, n - 1);
      assert pages[..n] == pages[..n - 1] + [pages[n - 1]];
    }
  }

  /** Without blank pages, deletion keeps every page. */
  lemma {:induction false} NoBlankKeepsAll(pages: seq<string>, n: nat)
    requires n <= |pages| && |BlankIndexes(pages, n)| == 0
    ensures NonBlank(pages, n) == pages[..n]
  {
    if n > 0 {
      assert |BlankIndexes(pages, n - 1)| == 0;
      NoBlankKeepsAll(pages, n - 1);
      assert pages[..n] == pages[..n - 1] + [pages[n - 1]];
    }
  }

  // ---------------------------------------------------------------------------
  // Footers
  // ---------------------------------------------------------------------------

  /** The footers after pages `1..m-1` are stamped with their own numbers. */
  function Stamped(footers: map<nat, string>, m: nat): map<nat, string>
  {
    if m <= 1 then footers else Stamped(footers, m - 1)[m - 1 := NatToString(m - 1)]
  }

  /** Every page after the cover shows its number, which reads back as that
      number; the cover and the pages beyond `m` keep what they had. */
  lemma {:induction false} StampedNumbers(footers: map<nat, string>, m: nat, n: nat)
    ensures 1 <= n < m ==> n in Stamped(footers, m) && Stamped(footers, m)[n] == NatToString(n)
    ensures !(1 <= n < m) ==> (n in Stamped(footers, m) <==> n in footers)
    ensures !(1 <= n < m) && n in footers ==> Stamped(footers, m)[n] == footers[n]
  {
    if m > 1 {
      StampedNumbers(footers, m - 1, n);
    }
  }

  // ---------------------------------------------------------------------------
  // Page text and headings
  // ---------------------------------------------------------------------------

  /** A line break as a one-character pattern replaced by something without one leaves none. */
  lemma {:induction false} ReplaceAllRemovesChar(s: string, c: char, rep: string)
    requires c !in rep
    ensures c !in ReplaceAll(s, [c], rep)
    decreases |s|
  {
    if |s| >= 1 {
      ReplaceAllRemovesChar(s[1..], c, rep);
      if s[..1] != [c] {
        assert s[0] != c by { assert s[..1][0] == s[0]; }
      }
    }
  }

  /** Line breaks become spaces, then one left-to-right pass turns each pair of
      spaces into one. */
  function NormalizeText(text: string): (r: string)
    ensures '\n' !in r
  {
    var spaced := ReplaceAll(text, "\n", " ");
    ReplaceAllRemovesChar(text, '\n', " ");
    ReplaceAllKeepsAbsent(spaced, "  ", " ", '\n');
    ReplaceAll(spaced, "  ", " ")
  }

  /** The longest heading searched for. */
  const HEADING_LIMIT: nat := 38

  /** A heading cut to 38 characters, then before its first backtick. */
  function Shorten(heading: string): (r: string)
    ensures |r| <= HEADING_LIMIT && '`' !in r
    ensures StartsWith(heading, r)
    ensures |heading| <= HEADING_LIMIT && '`' !in heading ==> r == heading
  {
    var cut := if |heading| > HEADING_LIMIT then heading[..HEADING_LIMIT] else heading;
    if '`' in cut then
      SplitPiecesFreeOfChar(cut, '`');
      ContainsCharIff(cut, '`');
      var i := Find(cut, "`").value;
      SplitUnfold(cut, "`", i);
      Split(cut, "`")[0]
    else
      cut
  }

  /** Shortening twice is shortening once: the later pages search for the same
      text as the first. */
  lemma ShortenIdempotent(heading: string)
    ensures Shorten(Shorten(heading)) == Shorten(heading)
  {
  }

  /** The headings as every searched page sees them. */
  function ShortenAll(headings: seq<string>): (r: seq<string>)
    ensures |r| == |headings| && forall i :: 0 <= i < |r| ==> r[i] == Shorten(headings[i])
  {
    seq(|headings|, i requires 0 <= i < |headings| => Shorten(headings[i]))
  }

  // ---------------------------------------------------------------------------
  // Heading resolution
  // ---------------------------------------------------------------------------

  /** The two dictionaries of the resolution, and the order in which headings
      entered the first (the order the placeholders are later visited in). */
  datatype Resolution = Resolution(index: map<string, nat>, occurrences: map<string, nat>, order: seq<string>)

  const NO_RESOLUTION := Resolution(map[], map[], [])

  /** How many times a heading must be seen before it resolves. */
  function Threshold(heading: string): nat
  {
    if StartsWith(heading, "[") then 3 else 2
  }

  /** One heading against page `n`'s text. */
  function Visit(r: Resolution, heading: string, text: string, n: nat): Resolution
  {
    if !Contains(text, heading) || heading in r.index then r
    else
      var count := (if heading in r.occurrences then r.occurrences[heading] else 0) + 1;
      var occurrences := r.occurrences[heading := count];
      if count < Threshold(heading) then Resolution(r.index, occurrences, r.order)
      else Resolution(r.index[heading := n], occurrences, r.order + [heading])
  }

  /** The first `i` headings against page `n`'s text. */
  function VisitAll(r: Resolution, headings: seq<string>, text: string, n: nat, i: nat): Resolution
    requires i <= |headings|
  {
    if i == 0 then r else Visit(VisitAll(r, headings, text, n, i - 1), headings[i - 1], text, n)
  }

  /** The resolution after pages `1..m-1`, page `n` having the text `text(n)`. */
  function ResolveUpTo(text: nat -> string, headings: seq<string>, m: nat): Resolution
  {
    if m <= 1 then NO_RESOLUTION
    else VisitAll(ResolveUpTo(text, headings, m - 1), headings, text(m - 1), m - 1, |headings|)
  }

  /** What a resolution after pages `1..m-1` holds: every resolved heading is on
      its page, which is not the cover, and was counted exactly its threshold;
      every unresolved one was counted fewer times; the order lists each
      resolved heading once. */
  ghost predicate ResolutionValid(r: Resolution, text: nat -> string, m: nat)
  {
    (forall h :: h in r.index ==>
       1 <= r.index[h] < m && Contains(text(r.index[h]), h)
       && h in r.occurrences && r.occurrences[h] == Threshold(h))
    && (forall h :: h in r.occurrences && h !in r.index ==> 0 < r.occurrences[h] < Threshold(h))
    && (forall h :: h in r.index <==> h in r.order)
    && (forall i, j :: 0 <= i < j < |r.order| ==> r.order[i] != r.order[j])
  }

  lemma VisitValid(r: Resolution, heading: string, text: nat -> string, n: nat, m: nat)
    requires ResolutionValid(r, text, m) && 1 <= n < m
    ensures ResolutionValid(Visit(r, heading, text(n), n), text, m)
  {
    var r' := Visit(r, heading, text(n), n);
    if Contains(text(n), heading) && heading !in r.index {
      assert heading !in r.order;
      forall i, j | 0 <= i < j < |r'.order| ensures r'.order[i] != r'.order[j] {
        if j == |r.order| && r'.order != r.order {
          assert r'.order[i] == r.order[i];
        }
      }
    }
  }

  lemma {:induction false} VisitAllValid(r: Resolution, headings: seq<string>, text: nat -> string, n: nat, i: nat, m: nat)
    requires i <= |headings| && ResolutionValid(r, text, m) && 1 <= n < m
    ensures ResolutionValid(VisitAll(r, headings, text(n), n, i), text, m)
  {
    if i > 0 {
      VisitAllValid(r, headings, text, n, i - 1, m);
      VisitValid(VisitAll(r, headings, text(n), n, i - 1), headings[i - 1], text, n, m);
    }
  }

  lemma ValidExtends(r: Resolution, text: nat -> string, m: nat, m': nat)
    requires ResolutionValid(r, text, m) && m <= m'
    ensures ResolutionValid(r, text, m')
  {
  }

  /** The resolution after every searched page is valid. */
  lemma {:induction false} ResolveUpToValid(text: nat -> string, headings: seq<string>, m: nat)
    ensures ResolutionValid(ResolveUpTo(text, headings, m), text, m)
    ensures ResolutionCounts(ResolveUpTo(text, headings, m), text, headings, m)
  {
    forall h {
      ResolveUpToCounts(text, headings, m, h);
    }
    if m > 1 {
      ResolveUpToValid(text, headings, m - 1);
      ValidExtends(ResolveUpTo(text, headings, m - 1), text, m - 1, m);
      VisitAllValid(ResolveUpTo(text, headings, m - 1), headings, text, m - 1, |headings|, m);
    }
  }

  /** A resolved heading is never reassigned. */
  lemma {:induction false} VisitAllKeeps(r: Resolution, headings: seq<string>, text: string, n: nat, i: nat, h: string)
    requires i <= |headings| && h in r.index
    ensures h in VisitAll(r, headings, text, n, i).index
    ensures VisitAll(r, headings, text, n, i).index[h] == r.index[h]
  {
    if i > 0 {
      VisitAllKeeps(r, headings, text, n, i - 1, h);
    }
  }

  lemma {:induction false} ResolvedStays(text: nat -> string, headings: seq<string>, m: nat, m': nat, h: string)
    requires m <= m' && h in ResolveUpTo(text, headings, m).index
    ensures h in ResolveUpTo(text, headings, m').index
    ensures ResolveUpTo(text, headings, m').index[h] == ResolveUpTo(text, headings, m).index[h]
    decreases m' - m
  {
    if m < m' {
      ResolvedStays(text, headings, m, m' - 1, h);
      VisitAllKeeps(ResolveUpTo(text, headings, m' - 1), headings, text(m' - 1), m' - 1, |headings|, h);
    }
  }

  /** How many of the first `i` listed headings are `h`. */
  function Entries(headings: seq<string>, h: string, i: nat): nat
    requires i <= |headings|
  {
    if i == 0 then 0 else Entries(headings, h, i - 1) + (if headings[i - 1] == h then 1 else 0)
  }

  /** How often `h` is counted against a page with text `text` by the first
      `i` list entries: once per entry equal to it, when the page holds it. */
  function PageSightings(text: string, headings: seq<string>, h: string, i: nat): nat
    requires i <= |headings|
  {
    if Contains(text, h) then Entries(headings, h, i) else 0
  }

  /** How often `h` is counted against pages `1..m-1`. */
  function Sightings(text: nat -> string, headings: seq<string>, h: string, m: nat): nat
  {
    if m <= 1 then 0 else Sightings(text, headings, h, m - 1) + PageSightings(text(m - 1), headings, h, |headings|)
  }

  /** What the two dictionaries hold for `h` after it was seen `c` times: an
      occurrence count once it was seen, rising up to its threshold, and a page
      once the threshold is reached. */
  predicate Counted(r: Resolution, h: string, c: nat)
  {
    && (h in r.occurrences <==> c > 0)
    && (h in r.occurrences ==> r.occurrences[h] == if c < Threshold(h) then c else Threshold(h))
    && (h in r.index <==> c >= Threshold(h))
  }

  /** One visit counts `h` once when it is the visited heading and the page
      holds it; a heading it resolves gets the visited page. */
  lemma VisitCounts(r: Resolution, g: string, text: string, n: nat, h: string, c: nat)
    requires Counted(r, h, c)
    ensures Counted(Visit(r, g, text, n), h, c + if g == h && Contains(text, h) then 1 else 0)
    ensures h in r.index ==> h in Visit(r, g, text, n).index && Visit(r, g, text, n).index[h] == r.index[h]
    ensures h !in r.index && h in Visit(r, g, text, n).index ==> Visit(r, g, text, n).index[h] == n
  {
  }

  /** A pass over the first `i` headings counts `h` as often as it is listed
      among them, when the page holds it. */
  lemma {:induction false} VisitAllCounts(r: Resolution, headings: seq<string>, text: string, n: nat, i: nat,
                                          h: string, c: nat)
    requires i <= |headings| && Counted(r, h, c)
    ensures Counted(VisitAll(r, headings, text, n, i), h, c + PageSightings(text, headings, h, i))
    ensures h !in r.index && h in VisitAll(r, headings, text, n, i).index
            ==> VisitAll(r, headings, text, n, i).index[h] == n
  {
    if i > 0 {
      VisitAllCounts(r, headings, text, n, i - 1, h, c);
      var before := VisitAll(r, headings, text, n, i - 1);
      VisitCounts(before, headings[i - 1], text, n, h, c + PageSightings(text, headings, h, i - 1));
    }
  }

  /** Sightings only accumulate. */
  lemma {:induction false} SightingsMonotone(text: nat -> string, headings: seq<string>, h: string, m: nat, m': nat)
    requires m <= m'
    ensures Sightings(text, headings, h, m) <= Sightings(text, headings, h, m')
    decreases m' - m
  {
    if m < m' {
      SightingsMonotone(text, headings, h, m, m' - 1);
    }
  }

  /** After pages `1..m-1`, every heading's entries follow its sightings, and a
      resolved heading sits on the page on which its sightings reached the
      threshold. */
  ghost predicate ResolutionCounts(r: Resolution, text: nat -> string, headings: seq<string>, m: nat)
  {
    && (forall h :: Counted(r, h, Sightings(text, headings, h, m)))
    && (forall h :: h in r.index ==>
          Sightings(text, headings, h, r.index[h]) < Threshold(h) <= Sightings(text, headings, h, r.index[h] + 1))
  }

  /** The resolution of one heading after pages `1..m-1`, by its sightings. */
  lemma {:induction false} ResolveUpToCounts(text: nat -> string, headings: seq<string>, m: nat, h: string)
    ensures Counted(ResolveUpTo(text, headings, m), h, Sightings(text, headings, h, m))
    ensures var r := ResolveUpTo(text, headings, m);
            h in r.index ==>
              Sightings(text, headings, h, r.index[h]) < Threshold(h) <= Sightings(text, headings, h, r.index[h] + 1)
  {
    if m > 1 {
      ResolveUpToCounts(text, headings, m - 1, h);
      var prev := ResolveUpTo(text, headings, m - 1);
      VisitAllCounts(prev, headings, text(m - 1), m - 1, |headings|, h, Sightings(text, headings, h, m - 1));
      if h in prev.index {
        VisitAllKeeps(prev, headings, text(m - 1), m - 1, |headings|, h);
      }
    }
  }

  /** A resolved heading is on the first page after which it has been seen its
      threshold number of times: never before it, always from it on. */
  lemma ResolvedAtThreshold(text: nat -> string, headings: seq<string>, m: nat, h: string, k: nat)
    requires h in ResolveUpTo(text, headings, m).index
    ensures var n := ResolveUpTo(text, headings, m).index[h];
            (k <= n ==> Sightings(text, headings, h, k) < Threshold(h))
            && (n < k ==> Threshold(h) <= Sightings(text, headings, h, k))
  {
    var n := ResolveUpTo(text, headings, m).index[h];
    ResolveUpToCounts(text, headings, m, h);
    if k <= n {
      SightingsMonotone(text, headings, h, k, n);
    } else {
      SightingsMonotone(text, headings, h, n + 1, k);
    }
  }

  // ---------------------------------------------------------------------------
  // Page tokens
  // ---------------------------------------------------------------------------

  /** The page token of a heading's first space-separated token: a trailing
      character is dropped from a token holding `.`, and the token is bracketed
      unless it already holds a bracket. */
  function TokenKey(token: string): string
  {
    var index := if '.' in token then token[..|token| - 1] else token;
    if '[' !in index && ']' !in index then "{{[" + index + "]_page}}" else "{{" + index + "_page}}"
  }

  /** The text the placeholder stage searches the pages for, for one heading. */
  function SearchKey(heading: string): string
  {
    TokenKey(Split(heading, " ")[0])
  }

  /** A heading's key depends only on the token before its first space. */
  lemma FirstTokenKey(token: string, rest: string)
    requires ' ' !in token
    ensures SearchKey(token + " " + rest) == TokenKey(token)
  {
    FindChar(token, ' ', rest);
    SplitAtFirst(token, " ", rest);
  }

  /** Shortening keeps every backtick-free prefix of at most 38 characters. */
  lemma ShortenKeepsPrefix(heading: string, k: nat)
    requires k <= |heading| && k <= HEADING_LIMIT && '`' !in heading[..k]
    ensures k <= |Shorten(heading)| && Shorten(heading)[..k] == heading[..k]
  {
    var cut := if |heading| > HEADING_LIMIT then heading[..HEADING_LIMIT] else heading;
    assert cut[..k] == heading[..k];
    if '`' in cut {
      ContainsCharIff(cut, '`');
      var i := Find(cut, "`").value;
      assert cut[i] == '`' by { assert cut[i..i + 1] == "`"; }
      assert forall m :: 0 <= m < k ==> cut[..k][m] != '`';
      SplitUnfold(cut, "`", i);
    }
  }

  /** Shortening keeps a first token that is short and has no backtick, and the space after it. */
  lemma ShortenKeepsToken(token: string, rest: string)
    requires ' ' !in token && '`' !in token && |token| < HEADING_LIMIT
    ensures StartsWith(Shorten(token + " " + rest), token + " ")
  {
    var heading := token + " " + rest;
    var lead := token + " ";
    assert heading[..|lead|] == lead;
    ShortenKeepsPrefix(heading, |lead|);
  }

  /** Shortening keeps the key of a heading whose first token is short and has no backtick. */
  lemma ShortenKeepsKey(token: string, rest: string)
    requires ' ' !in token && '`' !in token && |token| < HEADING_LIMIT
    ensures SearchKey(Shorten(token + " " + rest)) == SearchKey(token + " " + rest)
  {
    var short := Shorten(token + " " + rest);
    ShortenKeepsToken(token, rest);
    var tail := short[|token| + 1..];
    assert short == token + " " + tail;
    FirstTokenKey(token, rest);
    FirstTokenKey(token, tail);
  }

  /** The digits of a number hold no bracket, dot or space. */
  lemma NumberFree(k: nat)
    ensures '[' !in NatToString(k) && ']' !in NatToString(k)
    ensures '.' !in NatToString(k) && ' ' !in NatToString(k)
  {
    var d := NatToString(k);
    forall i | 0 <= i < |d| ensures d[i] != '[' && d[i] != ']' && d[i] != '.' && d[i] != ' ' {
      assert IsDigit(d[i]);
    }
  }

  /** The key of a severity subsection heading `<S>.<k>. <Display> Findings` is
      the page token the legend writes for that subsection. */
  lemma SeverityHeadingKey(S: string, k: nat, s: Severity)
    requires ' ' !in S && '[' !in S && ']' !in S
    ensures SearchKey(SeverityHeading(S, k, s)) == PagePlaceholder(SubsectionNumber(S, k))
  {
    var number := SubsectionNumber(S, k);
    NumberFree(k);
    var token := number + ".";
    assert SeverityHeading(S, k, s) == token + " " + (DisplayCase(s) + " Findings");
    FirstTokenKey(token, DisplayCase(s) + " Findings");
    assert '.' in token by { assert token[|token| - 1] == '.'; }
    assert token[..|token| - 1] == number;
    assert '[' !in number && ']' !in number;
  }

  /** The key of a finding heading `[<id>] <title>` is the page token the legend
      writes for that finding. */
  lemma FindingHeadingKey(f: Finding)
    requires ' ' !in f.id && '.' !in f.id
    ensures SearchKey(FindingHeading(f)) == PagePlaceholder(f.id)
  {
    var token := "[" + f.id + "]";
    BracketedHeading(f.id, f.title);
    FirstTokenKey(token, f.title);
    BracketedTokenKey(f.id);
  }

  lemma BracketedHeading(id: string, title: string)
    ensures "[" + id + "] " + title == ("[" + id + "]") + " " + title
  {
    var a := "[" + id + "] " + title;
    var b := ("[" + id + "]") + " " + title;
    assert |a| == |b|;
    forall i | 0 <= i < |a| ensures a[i] == b[i] {
    }
  }

  /** The key of a bracketed token is the token's own page placeholder. */
  lemma BracketedTokenKey(id: string)
    requires '.' !in id
    ensures TokenKey("[" + id + "]") == PagePlaceholder(id)
  {
    var token := "[" + id + "]";
    assert '.' !in token;
    assert token[0] == '[';
    Assoc3("{{", token, "_page}}");
    assert "{{" + token == "{{[" + id + "]" by { Assoc3("{{", "[" + id, "]"); }
  }

  // ---------------------------------------------------------------------------
  // Placeholder rewriting
  // ---------------------------------------------------------------------------

  /** One page-number rewrite: the first hit of `key` on page `page` became `number`. */
  datatype Redaction = Redaction(page: nat, key: string, number: nat)

  /** The first page from `p` on whose text holds `key`. */
  function FirstHit(pages: seq<string>, key: string, p: nat): (r: Option<nat>)
    requires p <= |pages|
    ensures r.Some? ==> p <= r.value < |pages| && Contains(pages[r.value], key)
    ensures r.Some? ==> forall q :: p <= q < r.value ==> !Contains(pages[q], key)
    ensures r.None? ==> forall q :: p <= q < |pages| ==> !Contains(pages[q], key)
    decreases |pages| - p
  {
    if p == |pages| then None
    else if Contains(pages[p], key) then Some(p)
    else FirstHit(pages, key, p + 1)
  }

  /** `text` with the first occurrence of `key` replaced by `number`. */
  function ReplaceFirst(text: string, key: string, number: string): string
  {
    match Find(text, key)
    case None => text
    case Some(i) => text[..i] + number + text[i + |key|..]
  }

  /** The pages and the rewrites after the first `i` resolved headings, in the
      order they resolved: each heading's key, found on the first page holding
      it, is replaced there by the heading's page number; a key found nowhere
      is skipped. */
  function Placed(pages: seq<string>, index: map<string, nat>, order: seq<string>, keyOf: string -> string, i: nat)
    : (seq<string>, seq<Redaction>)
    requires i <= |order| && forall j :: 0 <= j < |order| ==> order[j] in index
  {
    if i == 0 then (pages, [])
    else
      var (before, done) := Placed(pages, index, order, keyOf, i - 1);
      var key := keyOf(order[i - 1]);
      var number := index[order[i - 1]];
      match FirstHit(before, key, 0)
      case None => (before, done)
      case Some(q) => (before[q := ReplaceFirst(before[q], key, NatToString(number))], done + [Redaction(q, key, number)])
  }

  /** Rewriting keeps the page count; at most one rewrite per heading; every
      rewrite puts the page number of a resolved heading in place of that
      heading's key, on an existing page. */
  lemma {:induction false} PlacedRedactions(pages: seq<string>, index: map<string, nat>, order: seq<string>,
                                            keyOf: string -> string, i: nat)
    requires i <= |order| && forall j :: 0 <= j < |order| ==> order[j] in index
    ensures |Placed(pages, index, order, keyOf, i).0| == |pages|
    ensures |Placed(pages, index, order, keyOf, i).1| <= i
    ensures forall rd :: rd in Placed(pages, index, order, keyOf, i).1 ==>
              rd.page < |pages| && exists h :: h in index && rd.key == keyOf(h) && rd.number == index[h]
  {
    if i > 0 {
      PlacedRedactions(pages, index, order, keyOf, i - 1);
      var h := order[i - 1];
      assert h in index;
    }
  }

  // ---------------------------------------------------------------------------
  // The document
  // ---------------------------------------------------------------------------

  /** The rendered report, as the PDF library holds it. */
  class Document {
    /** The extracted text of each page. */
    var pages: seq<string>
    /** The number stamped at the foot of each stamped page. */
    var footers: map<nat, string>
    /** The page-number rewrites applied, in order. */
    var redactions: seq<Redaction>

    constructor (pages: seq<string>)
      ensures this.pages == pages && footers == map[] && redactions == []
    {
      this.pages := pages;
      footers := map[];
      redactions := [];
    }
  }

  /** The normalised text of page `n` once its number is stamped. */
  function Texts(pages: seq<string>, extract: (string, string) -> string): nat -> string
  {
    (n: nat) => if n < |pages| then NormalizeText(extract(pages[n], NatToString(n))) else ""
  }

  /** Collects the blank pages, then deletes them in one batch. */
  method DeleteBlankPages(doc: Document)
    modifies doc`pages
    ensures doc.pages == NonBlank(old(doc.pages), |old(doc.pages)|)
  {
    var pages := doc.pages;
    var toDelete: seq<nat> := [];
    for i := 0 to |pages|
      invariant toDelete == BlankIndexes(pages, i)
    {
      if pages[i] == "" {
        toDelete := toDelete + [i];
      }
    }
    if |toDelete| > 0 {
      // The library's batch deletion: every listed page goes, the rest keep their order.
      var kept: seq<string> := [];
      for i := 0 to |pages|
        invariant kept == NonBlank(pages, i)
      {
        if i !in toDelete {
          kept := kept + [pages[i]];
        }
      }
      doc.pages := kept;
    } else {
      NoBlankKeepsAll(pages, |pages|);
      assert pages[..|pages|] == pages;
    }
  }

  /** The headings shortened once are shortened for good. */
  lemma ShortenAllIdempotent(headings: seq<string>)
    ensures ShortenAll(ShortenAll(headings)) == ShortenAll(headings)
  {
    forall i | 0 <= i < |headings| ensures ShortenAll(ShortenAll(headings))[i] == ShortenAll(headings)[i] {
      ShortenIdempotent(headings[i]);
    }
  }

  /** Shortens heading `i` in place and returns it. */
  method ShortenInPlace(headings: array<string>, i: nat) returns (heading: string)
    requires i < headings.Length
    modifies headings
    ensures heading == Shorten(old(headings[i]))
    ensures headings[..] == old(headings[..])[i := heading]
  {
    heading := headings[i];
    if |heading| > HEADING_LIMIT {
      heading := heading[..HEADING_LIMIT];
      headings[i] := heading;
    }
    if '`' in heading {
      heading := Split(heading, "`")[0];
      headings[i] := heading;
    }
  }

  /** Counts one heading against page `n`'s text and resolves it there once it
      has been seen its threshold number of times. */
  method CountHeading(heading: string, pageText: string, n: nat, r: Resolution) returns (r': Resolution)
    ensures r' == Visit(r, heading, pageText, n)
  {
    r' := r;
    if !Contains(pageText, heading) {
      return;
    }
    if heading in r.index {
      return;
    }
    var occurrences := r.occurrences;
    if heading !in occurrences {
      occurrences := occurrences[heading := 0];
    }
    occurrences := occurrences[heading := occurrences[heading] + 1];
    r' := Resolution(r.index, occurrences, r.order);
    if occurrences[heading] < 2 {
      return;
    }
    if occurrences[heading] < 3 && StartsWith(heading, "[") {
      return;
    }
    r' := Resolution(r.index[heading := n], occurrences, r.order + [heading]);
  }

  /** The inner loop over the headings for page `n`: each heading is shortened
      in place, then counted against the page's text. */
  method VisitHeadings(headings: array<string>, pageText: string, n: nat, r: Resolution) returns (r': Resolution)
    modifies headings
    ensures headings[..] == ShortenAll(old(headings[..]))
    ensures r' == VisitAll(r, ShortenAll(old(headings[..])), pageText, n, headings.Length)
  {
    ghost var original := headings[..];
    ghost var shortened := ShortenAll(original);
    r' := r;
    for i := 0 to headings.Length
      invariant r' == VisitAll(r, shortened, pageText, n, i)
      invariant forall j :: 0 <= j < headings.Length ==> headings[j] == if j < i then shortened[j] else original[j]
    {
      var heading := ShortenInPlace(headings, i);
      r' := CountHeading(heading, pageText, n, r');
    }
    assert headings[..] == shortened;
  }

  /** Stamps every page after the cover with its number and finds, page by page,
      where each (shortened) heading resolves; the shortened headings are
      written back into `headings`. */
  method ResolveHeadings(doc: Document, headings: array<string>, extract: (string, string) -> string)
    returns (r: Resolution)
    modifies doc`footers, headings
    ensures doc.footers == Stamped(old(doc.footers), |doc.pages|)
    ensures r == ResolveUpTo(Texts(doc.pages, extract), ShortenAll(old(headings[..])), |doc.pages|)
    ensures headings[..] == if |doc.pages| > 1 then ShortenAll(old(headings[..])) else old(headings[..])
  {
    var pages, footers := doc.pages, doc.footers;
    ghost var original := headings[..];
    ghost var shortened := ShortenAll(original);
    ghost var text := Texts(pages, extract);
    ShortenAllIdempotent(original);
    r := NO_RESOLUTION;
    for n := 0 to |pages|
      invariant footers == Stamped(old(doc.footers), n)
      invariant r == ResolveUpTo(text, shortened, n)
      invariant headings[..] == if n > 1 then shortened else original
    {
      if n == 0 {
        continue;
      }
      footers := footers[n := NatToString(n)];
      var pageText := NormalizeText(extract(pages[n], NatToString(n)));
      assert pageText == text(n);
      r := VisitHeadings(headings, pageText, n, r);
    }
    doc.footers := footers;
  }

  /** The inner loop over the pages for one key: the first page holding the key
      gets its first hit rewritten, and the search stops there. */
  method PlaceKey(pages: seq<string>, key: string, number: nat) returns (pages': seq<string>, hit: Option<nat>)
    ensures hit == FirstHit(pages, key, 0)
    ensures hit.None? ==> pages' == pages
    ensures hit.Some? ==> pages' == pages[hit.value := ReplaceFirst(pages[hit.value], key, NatToString(number))]
  {
    pages', hit := pages, None;
    for p := 0 to |pages|
      invariant forall q :: 0 <= q < p ==> !Contains(pages[q], key)
      invariant pages' == pages && hit == None
    {
      if !Contains(pages[p], key) {
        continue;
      }
      pages' := pages[p := ReplaceFirst(pages[p], key, NatToString(number))];
      hit := Some(p);
      return;
    }
  }

  /** For each resolved heading in the order it resolved, replaces the first
      hit of its key on the first page holding it by its page number. */
  method ResolvePlaceholders(doc: Document, index: map<string, nat>, order: seq<string>)
    requires forall j :: 0 <= j < |order| ==> order[j] in index
    modifies doc`pages, doc`redactions
    ensures doc.pages == Placed(old(doc.pages), index, order, SearchKey, |order|).0
    ensures doc.redactions == old(doc.redactions) + Placed(old(doc.pages), index, order, SearchKey, |order|).1
  {
    var pages, redactions := doc.pages, doc.redactions;
    var done: seq<Redaction> := [];
    for i := 0 to |order|
      invariant (pages, done) == Placed(old(doc.pages), index, order, SearchKey, i)
    {
      var section := order[i];
      var key := SearchKey(section);
      var hit;
      pages, hit := PlaceKey(pages, key, index[section]);
      if hit.Some? {
        done := done + [Redaction(hit.value, key, index[section])];
      }
    }
    doc.pages := pages;
    doc.redactions := redactions + done;
  }

  // ---------------------------------------------------------------------------
  // The whole stage
  // ---------------------------------------------------------------------------

  /** Where the (shortened) headings resolve over the given pages. */
  function Resolved(pages: seq<string>, headings: seq<string>, extract: (string, string) -> string): (r: Resolution)
    ensures ResolutionValid(r, Texts(pages, extract), |pages|)
  {
    ResolveUpToValid(Texts(pages, extract), ShortenAll(headings), |pages|);
    ResolveUpTo(Texts(pages, extract), ShortenAll(headings), |pages|)
  }

  /** Over the kept pages, each shortened heading is counted and resolved by its
      sightings. */
  lemma ResolvedBySightings(pages: seq<string>, headings: seq<string>, extract: (string, string) -> string)
    ensures ResolutionCounts(Resolved(pages, headings, extract), Texts(pages, extract), ShortenAll(headings), |pages|)
  {
    ResolveUpToValid(Texts(pages, extract), ShortenAll(headings), |pages|);
  }

  /** `create_report_with_page_numbers_and_legend` on an opened document: blank
      pages deleted, the rest numbered, the headings resolved and shortened in
      the caller's list, and the page tokens replaced. */
  method CreateReportWithPageNumbersAndLegend(doc: Document, headings: array<string>,
                                              extract: (string, string) -> string)
    modifies doc, headings
    ensures var kept := NonBlank(old(doc.pages), |old(doc.pages)|);
            var r := Resolved(kept, old(headings[..]), extract);
            doc.footers == Stamped(old(doc.footers), |kept|)
            && doc.pages == Placed(kept, r.index, r.order, SearchKey, |r.order|).0
            && doc.redactions == old(doc.redactions) + Placed(kept, r.index, r.order, SearchKey, |r.order|).1
    ensures var kept := NonBlank(old(doc.pages), |old(doc.pages)|);
            headings[..] == if |kept| > 1 then ShortenAll(old(headings[..])) else old(headings[..])
  {
    DeleteBlankPages(doc);
    var r := ResolveHeadings(doc, headings, extract);
    assert r == Resolved(doc.pages, old(headings[..]), extract);
    ResolvePlaceholders(doc, r.index, r.order);
  }

  /** Every page number written in the report is the page, after the cover, on
      which some heading resolved and whose text holds it, and it replaces that
      heading's own key on an existing page. */
  lemma PageNumbersPointAtHeadings(pages: seq<string>, headings: seq<string>, extract: (string, string) -> string)
    ensures var r := Resolved(pages, headings, extract);
            forall rd :: rd in Placed(pages, r.index, r.order, SearchKey, |r.order|).1 ==>
              rd.page < |pages| && 1 <= rd.number < |pages|
              && exists h :: h in r.index && rd.key == SearchKey(h) && rd.number == r.index[h]
                             && Contains(Texts(pages, extract)(rd.number), h)
  {
    var r := Resolved(pages, headings, extract);
    PlacedRedactions(pages, r.index, r.order, SearchKey, |r.order|);
  }

  /** A finding's heading, shortened as the stage shortens it, still yields the
      page token the legend wrote for the finding. */
  lemma FindingTokenSurvives(f: Finding)
    requires ' ' !in f.id && '.' !in f.id && '`' !in f.id && |f.id| + 2 < HEADING_LIMIT
    ensures SearchKey(Shorten(FindingHeading(f))) == PagePlaceholder(f.id)
  {
    var token := "[" + f.id + "]";
    BracketedHeading(f.id, f.title);
    ShortenKeepsKey(token, f.title);
    FindingHeadingKey(f);
  }

  /** A severity subsection heading, shortened, still yields the page token the
      legend wrote for the subsection. */
  lemma SeverityTokenSurvives(S: string, k: nat, s: Severity)
    requires ' ' !in S && '[' !in S && ']' !in S && '`' !in S
    requires |SubsectionNumber(S, k)| + 1 < HEADING_LIMIT
    ensures SearchKey(Shorten(SeverityHeading(S, k, s))) == PagePlaceholder(SubsectionNumber(S, k))
  {
    var token := SubsectionNumber(S, k) + ".";
    NumberFree(k);
    assert SeverityHeading(S, k, s) == token + " " + (DisplayCase(s) + " Findings");
    ShortenKeepsKey(token, DisplayCase(s) + " Findings");
    SeverityHeadingKey(S, k, s);
  }
}
