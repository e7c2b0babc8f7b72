/**
  Python string semantics used throughout the report pipeline: substring search,
  `str.replace` (left to right, non-overlapping), `str.split(sep)`, `sep.join`,
  `str.count`, `str.strip`, `str.upper` and the `int()`/`str()` conversions.
*/
module Strings {

  datatype Option<+T> = None | Some(value: T)

  // ---------------------------------------------------------------------------
  // Occurrences and substring search
  // ---------------------------------------------------------------------------

  /** `sub` occurs in `s` starting at index `i`. */
  predicate OccursAt(s: string, sub: string, i: int)
  {
    0 <= i && i + |sub| <= |s| && s[i..i + |sub|] == sub
  }

  predicate StartsWith(s: string, prefix: string)
  {
    |prefix| <= |s| && s[..|prefix|] == prefix
  }

  predicate EndsWith(s: string, suffix: string)
  {
    |suffix| <= |s| && s[|s| - |suffix|..] == suffix
  }

  lemma OccursAtShift(s: string, sub: string, j: int)
    requires |s| > 0 && 0 <= j
    ensures OccursAt(s, sub, j + 1) <==> OccursAt(s[1..], sub, j)
  {
    if j + 1 + |sub| <= |s| {
      assert s[j + 1..j + 1 + |sub|] == s[1..][j..j + |sub|];
    }
  }

  /** The first index at which `sub` occurs in `s` (Python `s.find(sub)`). */
  function Find(s: string, sub: string): (r: Option<nat>)
    ensures r.Some? ==> OccursAt(s, sub, r.value)
    ensures r.Some? ==> forall j :: 0 <= j < r.value ==> !OccursAt(s, sub, j)
    ensures r.None? ==> forall j :: !OccursAt(s, sub, j)
    decreases |s|
  {
    if StartsWith(s, sub) then
      assert OccursAt(s, sub, 0);
      Some(0)
    else if |s| == 0 then
      None
    else
      var rest := Find(s[1..], sub);
      assert !OccursAt(s, sub, 0);
      assert forall j :: 0 <= j ==> (OccursAt(s, sub, j + 1) <==> OccursAt(s[1..], sub, j)) by {
        forall j | 0 <= j ensures OccursAt(s, sub, j + 1) <==> OccursAt(s[1..], sub, j) {
          OccursAtShift(s, sub, j);
        }
      }
      match rest
      case None =>
        assert forall j :: !OccursAt(s, sub, j) by {
          forall j ensures !OccursAt(s, sub, j) {
            if j > 0 { assert !OccursAt(s[1..], sub, j - 1); }
          }
        }
        None
      case Some(k) =>
        assert forall j :: 0 <= j < k + 1 ==> !OccursAt(s, sub, j) by {
          forall j | 0 <= j < k + 1 ensures !OccursAt(s, sub, j) {
            if j > 0 { assert !OccursAt(s[1..], sub, j - 1); }
          }
        }
        Some(k + 1)
  }

  /** `b` occurs in `a + b + c` right after `a`. */
  lemma OccursInMiddle(a: string, b: string, c: string)
    ensures OccursAt(a + b + c, b, |a|) && Contains(a + b + c, b)
  {
    assert (a + b + c)[|a|..|a| + |b|] == b;
    assert OccursAt(a + b + c, b, |a|);
    ContainsIff(a + b + c, b);
  }

  lemma EndsWithConcat(a: string, b: string)
    ensures EndsWith(a + b, b) && StartsWith(a + b, a)
  {
    assert (a + b)[|a|..] == b;
    assert (a + b)[..|a|] == a;
  }

  lemma OccursExtend(s: string, t: string, sub: string, i: int)
    requires OccursAt(s, sub, i)
    ensures OccursAt(s + t, sub, i) && Contains(s + t, sub)
  {
    assert (s + t)[i..i + |sub|] == s[i..i + |sub|];
    assert OccursAt(s + t, sub, i);
    ContainsIff(s + t, sub);
  }

  /** Python's `sub in s` for strings. */
  predicate Contains(s: string, sub: string)
  {
    Find(s, sub).Some?
  }

  lemma ContainsIff(s: string, sub: string)
    ensures Contains(s, sub) <==> exists i :: OccursAt(s, sub, i)
  {
    if Contains(s, sub) {
      assert OccursAt(s, sub, Find(s, sub).value);
    }
  }

  lemma {:induction false} ContainsCharIff(s: string, c: char)
    ensures Contains(s, [c]) <==> c in s
  {
    ContainsIff(s, [c]);
    if c in s {
      var i :| 0 <= i < |s| && s[i] == c;
      assert OccursAt(s, [c], i);
    }
    if Contains(s, [c]) {
      var i :| OccursAt(s, [c], i);
      assert s[i] == s[i..i + 1][0];
    }
  }

  // ---------------------------------------------------------------------------
  // str.replace
  // ---------------------------------------------------------------------------

  /** Python's `s.replace(pat, rep)`: every non-overlapping occurrence of `pat`,
      scanning left to right, is replaced by `rep`. */
  function ReplaceAll(s: string, pat: string, rep: string): string
    requires |pat| > 0
    decreases |s|
  {
    if |s| < |pat| then s
    else if s[..|pat|] == pat then rep + ReplaceAll(s[|pat|..], pat, rep)
    else [s[0]] + ReplaceAll(s[1..], pat, rep)
  }

  lemma {:induction false} ReplaceAllAbsent(s: string, pat: string, rep: string)
    requires |pat| > 0
    requires !Contains(s, pat)
    ensures ReplaceAll(s, pat, rep) == s
    decreases |s|
  {
    if |s| >= |pat| {
      assert !OccursAt(s, pat, 0);
      assert !Contains(s[1..], pat) by {
        if Contains(s[1..], pat) {
          var j := Find(s[1..], pat).value;
          OccursAtShift(s, pat, j);
        }
      }
      ReplaceAllAbsent(s[1..], pat, rep);
      assert s == [s[0]] + s[1..];
    }
  }

  /** A prefix that does not contain the first character of `pat` is copied unchanged. */
  lemma {:induction false} ReplaceAllSkipPrefix(a: string, b: string, pat: string, rep: string)
    requires |pat| > 0
    requires pat[0] !in a
    ensures ReplaceAll(a + b, pat, rep) == a + ReplaceAll(b, pat, rep)
    decreases |a|
  {
    if |a| > 0 {
      var s := a + b;
      assert s[0] == a[0];
      if |s| >= |pat| {
        assert s[..|pat|] != pat by { assert s[..|pat|][0] == a[0]; }
      }
      assert s[1..] == a[1..] + b;
      ReplaceAllSkipPrefix(a[1..], b, pat, rep);
      assert a == [a[0]] + a[1..];
    } else {
      assert a + b == b;
    }
  }

  /** An occurrence at the front is replaced, the scan resumes after it. */
  lemma ReplaceAllAtFront(b: string, pat: string, rep: string)
    requires |pat| > 0
    ensures ReplaceAll(pat + b, pat, rep) == rep + ReplaceAll(b, pat, rep)
  {
    var s := pat + b;
    assert s[..|pat|] == pat;
    assert s[|pat|..] == b;
  }

  /** A single leading character that does not start an occurrence is copied. */
  lemma ReplaceAllKeepChar(c: char, b: string, pat: string, rep: string)
    requires |pat| > 0
    requires !StartsWith([c] + b, pat)
    ensures ReplaceAll([c] + b, pat, rep) == [c] + ReplaceAll(b, pat, rep)
  {
    var s := [c] + b;
    assert s[1..] == b;
  }

  /** `s` does not start with `pat` when the two differ at a position both have. */
  lemma DiffersAt(s: string, pat: string, i: int)
    requires 0 <= i < |s| && i < |pat| && s[i] != pat[i]
    ensures !StartsWith(s, pat)
  {
    if |pat| <= |s| {
      assert s[..|pat|][i] == s[i];
    }
  }

  /** A `{{w` that does not start an occurrence of a `{{`-placeholder, where `w`
      holds no `{`, is copied unchanged. */
  lemma ReplaceAllSkipBraced(w: string, b: string, pat: string, rep: string)
    requires |pat| >= 2 && pat[0] == '{' && pat[1] == '{'
    requires |w| > 0 && '{' !in w
    requires !StartsWith("{{" + w + b, pat)
    ensures ReplaceAll("{{" + w + b, pat, rep) == "{{" + w + ReplaceAll(b, pat, rep)
  {
    assert "{{" + w + b == ['{'] + (['{'] + (w + b));
    ReplaceAllKeepChar('{', ['{'] + (w + b), pat, rep);
    DiffersAt(['{'] + (w + b), pat, 1);
    ReplaceAllKeepChar('{', w + b, pat, rep);
    ReplaceAllSkipPrefix(w, b, pat, rep);
    assert "{{" + w + ReplaceAll(b, pat, rep) == ['{'] + (['{'] + (w + ReplaceAll(b, pat, rep)));
  }

  /** Deleting every occurrence of a character leaves none behind. */
  lemma {:induction false} ReplaceAllDeletesChar(s: string, c: char)
    ensures c !in ReplaceAll(s, [c], "")
    decreases |s|
  {
    if |s| >= 1 {
      ReplaceAllDeletesChar(s[1..], c);
      if s[..1] != [c] {
        assert s[0] != c by { assert s[..1][0] == s[0]; }
      }
    }
  }

  /** A character found neither in the input nor in the replacement is not in the result. */
  lemma {:induction false} ReplaceAllKeepsAbsent(s: string, pat: string, rep: string, x: char)
    requires |pat| > 0 && x !in s && x !in rep
    ensures x !in ReplaceAll(s, pat, rep)
    decreases |s|
  {
    if |s| >= |pat| {
      if s[..|pat|] == pat {
        ReplaceAllKeepsAbsent(s[|pat|..], pat, rep, x);
      } else {
        ReplaceAllKeepsAbsent(s[1..], pat, rep, x);
      }
    }
  }

  /** Replacing a pattern that occurs puts the replacement into the result. */
  lemma {:induction false} ReplaceAllIntroduces(s: string, pat: string, rep: string)
    requires |pat| > 0 && Contains(s, pat)
    ensures Contains(ReplaceAll(s, pat, rep), rep)
    decreases |s|
  {
    ContainsIff(s, pat);
    var i :| OccursAt(s, pat, i);
    if s[..|pat|] == pat {
      assert OccursAt(rep, rep, 0);
      OccursExtend(rep, ReplaceAll(s[|pat|..], pat, rep), rep, 0);
    } else {
      assert i > 0;
      assert s[1..][i - 1..i - 1 + |pat|] == s[i..i + |pat|];
      assert OccursAt(s[1..], pat, i - 1);
      ContainsIff(s[1..], pat);
      ReplaceAllIntroduces(s[1..], pat, rep);
      var j := Find(ReplaceAll(s[1..], pat, rep), rep).value;
      OccursPrepend([s[0]], ReplaceAll(s[1..], pat, rep), rep, j);
    }
  }

  /** Replacing a character that does not occur changes nothing. */
  lemma ReplaceAllNoChar(s: string, c: char, rep: string)
    requires c !in s
    ensures ReplaceAll(s, [c], rep) == s
  {
    ReplaceAllSkipPrefix(s, "", [c], rep);
    assert s + "" == s;
  }

  /** `x` and `pat` differ at a position both of them have. */
  predicate Mismatch(x: string, pat: string)
    decreases |x|
  {
    |x| > 0 && |pat| > 0 && (x[0] != pat[0] || Mismatch(x[1..], pat[1..]))
  }

  /** No occurrence of `pat` can start inside `x`, whatever text follows `x`. */
  predicate NoMatchStartsIn(x: string, pat: string)
    decreases |x|
  {
    |x| == 0 || (Mismatch(x, pat) && NoMatchStartsIn(x[1..], pat))
  }

  lemma {:induction false} MismatchNotPrefix(x: string, b: string, pat: string)
    requires Mismatch(x, pat)
    ensures !StartsWith(x + b, pat)
    decreases |x|
  {
    if x[0] == pat[0] {
      MismatchNotPrefix(x[1..], b, pat[1..]);
      assert (x + b)[1..] == x[1..] + b;
    }
  }

  lemma {:induction false} NoMatchWithoutFirstChar(x: string, pat: string)
    requires |pat| > 0 && pat[0] !in x
    ensures NoMatchStartsIn(x, pat)
    decreases |x|
  {
    if |x| > 0 {
      NoMatchWithoutFirstChar(x[1..], pat);
    }
  }

  /** A piece in which no occurrence can start is copied unchanged. */
  lemma {:induction false} ReplaceAllSkipPiece(x: string, b: string, pat: string, rep: string)
    requires |pat| > 0 && NoMatchStartsIn(x, pat)
    ensures ReplaceAll(x + b, pat, rep) == x + ReplaceAll(b, pat, rep)
    decreases |x|
  {
    if |x| == 0 {
      assert x + b == b;
    } else {
      MismatchNotPrefix(x, b, pat);
      assert x + b == [x[0]] + (x[1..] + b);
      ReplaceAllKeepChar(x[0], x[1..] + b, pat, rep);
      ReplaceAllSkipPiece(x[1..], b, pat, rep);
    }
  }

  lemma {:induction false} MismatchAt(x: string, pat: string, k: nat)
    requires k < |x| && k < |pat| && x[k] != pat[k]
    ensures Mismatch(x, pat)
    decreases k
  {
    if x[0] == pat[0] {
      MismatchAt(x[1..], pat[1..], k - 1);
    }
  }

  /** Regrouping concatenations, kept apart from the proofs that use them. */
  lemma Assoc3(a: string, b: string, c: string)
    ensures a + b + c == a + (b + c)
  {
  }

  lemma Assoc4(a: string, b: string, c: string, d: string)
    ensures a + b + c + d == a + (b + (c + d))
  {
  }

  /** A longer pattern is mismatched wherever its prefix is. */
  lemma {:induction false} MismatchExtend(x: string, pat: string, q: string)
    requires Mismatch(x, pat)
    ensures Mismatch(x, pat + q)
    decreases |x|
  {
    if x[0] == pat[0] {
      MismatchExtend(x[1..], pat[1..], q);
      assert (pat + q)[1..] == pat[1..] + q;
    }
  }

  /** Where no occurrence of `pat` can start, none of `pat + q` can either. */
  lemma {:induction false} NoMatchExtend(x: string, pat: string, q: string)
    requires NoMatchStartsIn(x, pat)
    ensures NoMatchStartsIn(x, pat + q)
    decreases |x|
  {
    if |x| > 0 {
      MismatchExtend(x, pat, q);
      NoMatchExtend(x[1..], pat, q);
    }
  }

  /** No occurrence of `pat` starts in `x` when every position of `x` either
      differs from `pat[0]` or, `d` places further on, from `pat[d]`. */
  lemma {:induction false} NoMatchByChars(x: string, pat: string, d: nat)
    requires 0 < d < |pat|
    requires forall i :: 0 <= i < |x| ==> x[i] != pat[0] || (i + d < |x| && x[i + d] != pat[d])
    ensures NoMatchStartsIn(x, pat)
    decreases |x|
  {
    if |x| > 0 {
      if x[0] != pat[0] {
        MismatchAt(x, pat, 0);
      } else {
        assert d < |x| && x[d] != pat[d];
        MismatchAt(x, pat, d);
      }
      var t := x[1..];
      forall i | 0 <= i < |t|
        ensures t[i] != pat[0] || (i + d < |t| && t[i + d] != pat[d])
      {
        var j := i + 1;
        assert x[j] != pat[0] || (j + d < |x| && x[j + d] != pat[d]);
        assert t[i] == x[j];
        if i + 1 + d < |x| {
          assert t[i + d] == x[i + 1 + d];
        }
      }
      NoMatchByChars(t, pat, d);
    }
  }

  /** The usual way to meet `NoMatchByChars`: `pat[d]` occurs nowhere in `x`
      and `pat[0]` not among its last `d` characters. */
  lemma NoMatchByTail(x: string, pat: string, d: nat)
    requires 0 < d < |pat| && d <= |x|
    requires pat[d] !in x && pat[0] !in x[|x| - d..]
    ensures NoMatchStartsIn(x, pat)
  {
    forall i | 0 <= i < |x| && i + d >= |x|
      ensures x[i] != pat[0]
    {
      assert x[i] == x[|x| - d..][i - (|x| - d)];
    }
    NoMatchByChars(x, pat, d);
  }

  /** The first occurrence of `pat` in `x + pat + y` is the one after `x`. */
  lemma {:induction false} FindAfterNoMatch(x: string, pat: string, y: string)
    requires |pat| > 0 && NoMatchStartsIn(x, pat)
    ensures Find(x + pat + y, pat) == Some(|x|)
    decreases |x|
  {
    var s := x + pat + y;
    if |x| == 0 {
      assert s == pat + y;
      assert s[..|pat|] == pat;
    } else {
      MismatchNotPrefix(x, pat + y, pat);
      assert x + (pat + y) == s;
      assert s[1..] == x[1..] + pat + y;
      FindAfterNoMatch(x[1..], pat, y);
    }
  }

  /** With no occurrence starting in `x`, splitting `x + pat + y` yields `x` first. */
  lemma SplitAfterNoMatch(x: string, pat: string, y: string)
    requires |pat| > 0 && NoMatchStartsIn(x, pat)
    ensures Split(x + pat + y, pat) == [x] + Split(y, pat)
  {
    FindAfterNoMatch(x, pat, y);
    SplitAtFirst(x, pat, y);
  }

  /** A text without the first character of `pat` does not contain `pat`. */
  lemma NoFirstCharNoFind(s: string, pat: string)
    requires |pat| > 0 && pat[0] !in s
    ensures Find(s, pat).None?
  {
    forall j | 0 <= j && j + |pat| <= |s|
      ensures !OccursAt(s, pat, j)
    {
      assert s[j..j + |pat|][0] == s[j];
    }
  }

  /** A whole text in which no occurrence can start is left unchanged. */
  lemma ReplaceAllNoMatch(x: string, pat: string, rep: string)
    requires |pat| > 0 && NoMatchStartsIn(x, pat)
    ensures ReplaceAll(x, pat, rep) == x
  {
    ReplaceAllSkipPiece(x, "", pat, rep);
    assert x + "" == x;
  }

  // ---------------------------------------------------------------------------
  // str.split / str.join / str.count
  // ---------------------------------------------------------------------------

  /** Python's `s.split(sep)` for a non-empty separator. */
  function Split(s: string, sep: string): (r: seq<string>)
    requires |sep| > 0
    ensures |r| >= 1
    decreases |s|
  {
    match Find(s, sep)
    case None => [s]
    case Some(i) => [s[..i]] + Split(s[i + |sep|..], sep)
  }

  /** Python's `sep.join(parts)`. */
  function Join(parts: seq<string>, sep: string): string
    decreases |parts|
  {
    if |parts| == 0 then ""
    else if |parts| == 1 then parts[0]
    else parts[0] + sep + Join(parts[1..], sep)
  }

  /** Python's `"".join(parts)`. */
  function Concat(parts: seq<string>): string
    decreases |parts|
  {
    if |parts| == 0 then "" else parts[0] + Concat(parts[1..])
  }

  /** `"".join` distributes over list concatenation. */
  lemma {:induction false} ConcatAppend(a: seq<string>, b: seq<string>)
    ensures Concat(a + b) == Concat(a) + Concat(b)
    decreases |a|
  {
    if |a| > 0 {
      assert (a + b)[1..] == a[1..] + b;
      ConcatAppend(a[1..], b);
      assert (a + b)[0] == a[0];
      assert Concat(a + b) == a[0] + Concat(a[1..] + b);
      Assoc3(a[0], Concat(a[1..]), Concat(b));
      assert Concat(a) == a[0] + Concat(a[1..]);
      assert Concat(a + b) == a[0] + (Concat(a[1..]) + Concat(b));
    } else {
      assert a + b == b;
    }
  }

  /** An occurrence in `t` is one in `s + t`, shifted by `|s|`. */
  lemma OccursPrepend(s: string, t: string, sub: string, i: int)
    requires OccursAt(t, sub, i)
    ensures OccursAt(s + t, sub, |s| + i) && Contains(s + t, sub)
  {
    assert (s + t)[|s| + i..|s| + i + |sub|] == t[i..i + |sub|];
    assert OccursAt(s + t, sub, |s| + i);
    ContainsIff(s + t, sub);
  }

  /** A text that holds `b`, where `b` holds `c`, holds `c`. */
  lemma ContainsTrans(a: string, b: string, c: string)
    requires Contains(a, b) && Contains(b, c)
    ensures Contains(a, c)
  {
    var i := Find(a, b).value;
    var j := Find(b, c).value;
    assert a[i..i + |b|] == b && b[j..j + |c|] == c;
    forall m | 0 <= m < |c| ensures a[i + j + m] == c[m] {
      assert a[i..i + |b|][j + m] == b[j + m];
      assert b[j..j + |c|][m] == c[m];
    }
    assert a[i + j..i + j + |c|] == c;
    assert OccursAt(a, c, i + j);
    ContainsIff(a, c);
  }

  /** Every piece of a `"".join` occurs in the joined text. */
  lemma {:induction false} ConcatHasPiece(parts: seq<string>, j: int)
    requires 0 <= j < |parts|
    ensures Contains(Concat(parts), parts[j])
    decreases j
  {
    if j == 0 {
      assert OccursAt(parts[0], parts[0], 0);
      OccursExtend(parts[0], Concat(parts[1..]), parts[0], 0);
    } else {
      ConcatHasPiece(parts[1..], j - 1);
      var i := Find(Concat(parts[1..]), parts[j]).value;
      OccursPrepend(parts[0], Concat(parts[1..]), parts[j], i);
    }
  }

  /** Python's `s.count(sub)` for a non-empty `sub`: non-overlapping occurrences. */
  function Count(s: string, sub: string): nat
    requires |sub| > 0
  {
    |Split(s, sub)| - 1
  }

  lemma JoinCons(x: string, tail: seq<string>, sep: string)
    requires |tail| >= 1
    ensures Join([x] + tail, sep) == x + sep + Join(tail, sep)
  {
    assert ([x] + tail)[1..] == tail;
  }

  /** The split at the first separator, unfolded once. */
  lemma SplitUnfold(s: string, sep: string, i: nat)
    requires |sep| > 0 && Find(s, sep) == Some(i)
    ensures i + |sep| <= |s|
    ensures s == s[..i] + sep + s[i + |sep|..]
    ensures Split(s, sep) == [s[..i]] + Split(s[i + |sep|..], sep)
  {
    OccursAtSplits(s, sep, i);
  }

  /** An occurrence cuts the string into the text before, `sub`, and the rest. */
  lemma OccursAtSplits(s: string, sub: string, i: int)
    requires OccursAt(s, sub, i)
    ensures s == s[..i] + sub + s[i + |sub|..]
  {
    assert s == s[..i] + s[i..i + |sub|] + s[i + |sub|..];
  }

  lemma {:induction false} JoinSplit(s: string, sep: string)
    requires |sep| > 0
    ensures Join(Split(s, sep), sep) == s
    decreases |s|
  {
    var f := Find(s, sep);
    if f.Some? {
      var i := f.value;
      SplitUnfold(s, sep, i);
      var rest := s[i + |sep|..];
      JoinSplit(rest, sep);
      JoinCons(s[..i], Split(rest, sep), sep);
    }
  }

  lemma {:induction false} SplitPartsFree(s: string, sep: string)
    requires |sep| > 0
    ensures forall k :: 0 <= k < |Split(s, sep)| ==> !Contains(Split(s, sep)[k], sep)
    decreases |s|
  {
    match Find(s, sep)
    case None =>
    case Some(i) =>
      SplitPartsFree(s[i + |sep|..], sep);
      assert !Contains(s[..i], sep) by {
        if Contains(s[..i], sep) {
          var j := Find(s[..i], sep).value;
          assert s[..i][j..j + |sep|] == s[j..j + |sep|];
          assert OccursAt(s, sep, j);
        }
      }
  }

  /** The first piece of a split is the text before the first separator. */
  lemma SplitFirst(s: string, sep: string)
    requires |sep| > 0
    ensures Find(s, sep).None? ==> Split(s, sep) == [s]
    ensures Find(s, sep).Some? ==> Split(s, sep)[0] == s[..Find(s, sep).value]
    ensures Contains(s, sep) <==> |Split(s, sep)| >= 2
  {
  }

  /** Splitting `a + sep + b` when `a` holds no separator and none straddles into `sep`. */
  lemma SplitAtFirst(a: string, sep: string, b: string)
    requires |sep| > 0
    requires Find(a + sep + b, sep) == Some(|a|)
    ensures Split(a + sep + b, sep) == [a] + Split(b, sep)
  {
    var s := a + sep + b;
    assert s[..|a|] == a;
    assert s[|a| + |sep|..] == b;
  }

  /** Joining a split with its first piece replaced substitutes that piece only. */
  lemma {:induction false} JoinReplaceFirst(parts: seq<string>, x: string, sep: string)
    requires |parts| >= 1
    ensures Join(parts[0 := x], sep) == x + Join(parts, sep)[|parts[0]|..]
  {
    if |parts| == 1 {
    } else {
      assert parts[0 := x][1..] == parts[1..];
      var tail := sep + Join(parts[1..], sep);
      assert Join(parts, sep) == parts[0] + tail;
      assert (parts[0] + tail)[|parts[0]|..] == tail;
    }
  }

  /** The first occurrence of a one-character separator is its first position. */
  lemma FindChar(a: string, c: char, b: string)
    requires c !in a
    ensures Find(a + [c] + b, [c]) == Some(|a|)
  {
    var s := a + [c] + b;
    assert OccursAt(s, [c], |a|) by { assert s[|a|..|a| + 1] == [c]; }
    var k := Find(s, [c]).value;
    assert s[k] == c by { assert s[k..k + 1] == [c]; }
    assert forall i :: 0 <= i < |a| ==> s[i] == a[i];
  }

  /** The text before the first occurrence of a character is determined. */
  lemma SplitCharUnique(a: string, c: char, b: string, a': string, b': string)
    requires c !in a && c !in a'
    requires a + [c] + b == a' + [c] + b'
    ensures a == a' && b == b'
  {
    FindChar(a, c, b);
    FindChar(a', c, b');
    assert a == (a + [c] + b)[..|a|];
    assert a' == (a' + [c] + b')[..|a'|];
    assert b == (a + [c] + b)[|a| + 1..];
    assert b' == (a' + [c] + b')[|a'| + 1..];
  }

  /** A prefix without the character `c` of a text `u + c + rest` is a prefix of `u`. */
  lemma PrefixBeforeChar(u: string, c: char, rest: string, p: string)
    requires c !in p && StartsWith(u + [c] + rest, p)
    ensures StartsWith(u, p)
  {
    var s := u + [c] + rest;
    assert forall k :: 0 <= k < |p| ==> p[k] == s[k];
    assert s[|u|] == c;
    assert |p| <= |u|;
    assert s[..|p|] == u[..|p|];
  }

  /** Dropping a common first character keeps a prefix a prefix. */
  lemma StartsWithTail(c: char, x: string, p: string)
    requires StartsWith([c] + x, [c] + p)
    ensures StartsWith(x, p)
  {
    assert x[..|p|] == ([c] + x)[1..|p| + 1];
  }

  lemma StartsWithPrefix(s: string, p: string, q: string)
    requires StartsWith(s, p + q)
    ensures StartsWith(s, p)
  {
    assert s[..|p|] == (p + q)[..|p|];
  }

  lemma EndsWithSuffix(s: string, p: string, q: string)
    requires EndsWith(s, p + q)
    ensures EndsWith(s, q)
  {
    assert s[|s| - |q|..] == (p + q)[|p|..];
  }

  /** Splitting on a character that occurs exactly once yields the two sides. */
  lemma SplitAroundChar(a: string, c: char, b: string)
    requires c !in a && c !in b
    ensures Split(a + [c] + b, [c]) == [a, b]
    ensures Count(a + [c] + b, [c]) == 1
  {
    FindChar(a, c, b);
    SplitAtFirst(a, [c], b);
    ContainsCharIff(b, c);
    SplitFirst(b, [c]);
  }

  /** Splitting on a character that does not occur yields the whole string. */
  lemma SplitNoChar(s: string, c: char)
    requires c !in s
    ensures Split(s, [c]) == [s]
    ensures Count(s, [c]) == 0
  {
    ContainsCharIff(s, c);
    SplitFirst(s, [c]);
  }

  // ---------------------------------------------------------------------------
  // Whitespace, case
  // ---------------------------------------------------------------------------

  /** Python's `str.isspace` for a single character. */
  predicate IsSpace(c: char)
  {
    c == ' ' || ('\t' <= c <= '\r') || ('\U{1c}' <= c <= '\U{1f}') || c == '\U{85}' || c == '\U{a0}'
    || c == '\U{1680}' || ('\U{2000}' <= c <= '\U{200a}') || c == '\U{2028}' || c == '\U{2029}'
    || c == '\U{202f}' || c == '\U{205f}' || c == '\U{3000}'
  }

  /** Python's `s.lstrip()`. */
  function LStrip(s: string): (r: string)
    ensures |r| <= |s| && r == s[|s| - |r|..]
    ensures |r| > 0 ==> !IsSpace(r[0])
    ensures forall i :: 0 <= i < |s| - |r| ==> IsSpace(s[i])
    decreases |s|
  {
    if |s| > 0 && IsSpace(s[0]) then LStrip(s[1..]) else s
  }

  /** Python's `s.rstrip()`. */
  function RStrip(s: string): (r: string)
    ensures |r| <= |s| && r == s[..|r|]
    ensures |r| > 0 ==> !IsSpace(r[|r| - 1])
    ensures forall i :: |r| <= i < |s| ==> IsSpace(s[i])
    decreases |s|
  {
    if |s| > 0 && IsSpace(s[|s| - 1]) then RStrip(s[..|s| - 1]) else s
  }

  /** Python's `s.strip()`. */
  function Strip(s: string): string
  {
    RStrip(LStrip(s))
  }

  /** Stripping removes exactly the whitespace around a core that neither starts
      nor ends with whitespace. */
  lemma {:induction false} StripSurrounded(ws1: string, core: string, ws2: string)
    requires |core| > 0 && !IsSpace(core[0]) && !IsSpace(core[|core| - 1])
    requires forall i :: 0 <= i < |ws1| ==> IsSpace(ws1[i])
    requires forall i :: 0 <= i < |ws2| ==> IsSpace(ws2[i])
    ensures Strip(ws1 + core + ws2) == core
  {
    LStripSpaces(ws1, core + ws2);
    assert ws1 + core + ws2 == ws1 + (core + ws2);
    RStripSpaces(core, ws2);
  }

  lemma {:induction false} LStripSpaces(ws: string, t: string)
    requires |t| > 0 && !IsSpace(t[0])
    requires forall i :: 0 <= i < |ws| ==> IsSpace(ws[i])
    ensures LStrip(ws + t) == t
    decreases |ws|
  {
    if |ws| == 0 {
      assert ws + t == t;
    } else {
      assert (ws + t)[1..] == ws[1..] + t;
      LStripSpaces(ws[1..], t);
    }
  }

  lemma {:induction false} RStripSpaces(t: string, ws: string)
    requires |t| > 0 && !IsSpace(t[|t| - 1])
    requires forall i :: 0 <= i < |ws| ==> IsSpace(ws[i])
    ensures RStrip(t + ws) == t
    decreases |ws|
  {
    if |ws| == 0 {
      assert t + ws == t;
    } else {
      assert (t + ws)[..|t + ws| - 1] == t + ws[..|ws| - 1];
      RStripSpaces(t, ws[..|ws| - 1]);
    }
  }

  /** Stripping only removes characters. */
  lemma StripKeepsAbsent(s: string, c: char)
    requires c !in s
    ensures c !in Strip(s)
  {
    var l := LStrip(s);
    SliceKeepsAbsent(s, |s| - |l|, |s|, c);
    SliceKeepsAbsent(l, 0, |RStrip(l)|, c);
  }

  /** A character missing from a text is missing from each of its slices. */
  lemma SliceKeepsAbsent(s: string, lo: int, hi: int, c: char)
    requires 0 <= lo <= hi <= |s| && c !in s
    ensures c !in s[lo..hi]
  {
    forall i | 0 <= i < hi - lo
      ensures s[lo..hi][i] != c
    {
      assert s[lo..hi][i] == s[lo + i];
    }
  }

  /** A character missing from a text is missing from every piece of a split of it. */
  lemma {:induction false} SplitPiecesKeepAbsent(s: string, sep: string, c: char)
    requires |sep| > 0 && c !in s
    ensures forall k :: 0 <= k < |Split(s, sep)| ==> c !in Split(s, sep)[k]
    decreases |s|
  {
    match Find(s, sep)
    case None =>
    case Some(i) =>
      SplitUnfold(s, sep, i);
      var rest := s[i + |sep|..];
      assert forall j :: 0 <= j < |rest| ==> rest[j] == s[i + |sep| + j];
      SplitPiecesKeepAbsent(rest, sep, c);
  }

  /** The pieces of a split on one character do not hold that character. */
  lemma SplitPiecesFreeOfChar(s: string, c: char)
    ensures forall k :: 0 <= k < |Split(s, [c])| ==> c !in Split(s, [c])[k]
  {
    SplitPartsFree(s, [c]);
    forall k | 0 <= k < |Split(s, [c])|
      ensures c !in Split(s, [c])[k]
    {
      ContainsCharIff(Split(s, [c])[k], c);
    }
  }

  lemma StripNoSpace(s: string)
    requires forall i :: 0 <= i < |s| ==> !IsSpace(s[i])
    ensures Strip(s) == s
  {
  }

  lemma StripDigits(s: string)
    ensures AllDigits(s) ==> Strip(s) == s
  {
    if AllDigits(s) { StripNoSpace(s); }
  }

  /** Python's `str.upper` on ASCII letters. */
  function UpperChar(c: char): char
  {
    if 'a' <= c <= 'z' then (c as int - 32) as char else c
  }

  function Upper(s: string): (r: string)
    ensures |r| == |s|
    ensures forall i :: 0 <= i < |s| ==> r[i] == UpperChar(s[i])
  {
    seq(|s|, i requires 0 <= i < |s| => UpperChar(s[i]))
  }

  /** `" " * n` */
  function Spaces(n: int): (r: string)
    ensures |r| == if n < 0 then 0 else n
    ensures forall i :: 0 <= i < |r| ==> r[i] == ' '
  {
    if n <= 0 then "" else seq(n, _ => ' ')
  }

  // ---------------------------------------------------------------------------
  // Decimal conversions: str(int) and int(str)
  // ---------------------------------------------------------------------------

  predicate IsDigit(c: char)
  {
    '0' <= c <= '9'
  }

  predicate AllDigits(s: string)
  {
    forall i :: 0 <= i < |s| ==> IsDigit(s[i])
  }

  function DigitChar(d: nat): (c: char)
    requires d < 10
    ensures IsDigit(c) && c as int - '0' as int == d
  {
    ('0' as int + d) as char
  }

  /** The value of a string of decimal digits (leading zeros allowed, as Python's `int()` allows them). */
  function DigitsValue(s: string): nat
    requires AllDigits(s)
    decreases |s|
  {
    if |s| == 0 then 0 else DigitsValue(s[..|s| - 1]) * 10 + (s[|s| - 1] as int - '0' as int)
  }

  /** Python's `str(n)` for a natural number. */
  function NatToString(n: nat): (r: string)
    ensures |r| >= 1 && AllDigits(r)
    ensures DigitsValue(r) == n
    ensures (n < 10) == (|r| == 1)
    ensures 10 <= n < 100 ==> |r| == 2
    ensures |r| > 1 ==> r[0] != '0'
    decreases n
  {
    if n < 10 then
      var r := [DigitChar(n)];
      assert r[..0] == [];
      r
    else
      var hi := NatToString(n / 10);
      var r := hi + [DigitChar(n % 10)];
      assert r[..|r| - 1] == hi;
      assert AllDigits(r) by {
        forall i | 0 <= i < |r| ensures IsDigit(r[i]) {
          if i < |hi| { assert r[i] == hi[i]; }
        }
      }
      r
  }

  /** Python's `str(i)` for any integer. */
  function IntToString(i: int): (r: string)
    ensures |r| >= 1
    ensures i >= 0 ==> r == NatToString(i)
    ensures i < 0 ==> r[0] == '-'
  {
    if i < 0 then "-" + NatToString(-i) else NatToString(i)
  }

  lemma NatToStringInjective(m: nat, n: nat)
    requires NatToString(m) == NatToString(n)
    ensures m == n
  {
  }

  lemma {:induction false} DigitsValueLeadingZero(s: string)
    requires AllDigits(s) && |s| > 0 && s[0] == '0'
    ensures AllDigits(s[1..]) && DigitsValue(s[1..]) == DigitsValue(s)
    decreases |s|
  {
    if |s| > 1 {
      var t := s[..|s| - 1];
      DigitsValueLeadingZero(t);
      assert t[1..] == s[1..][..|s[1..]| - 1];
    } else {
      assert s[..0] == [];
    }
  }

  /** Python's `int(s)` for base 10: surrounding whitespace, an optional sign,
      then one or more ASCII digits. */
  function PythonInt(s: string): (r: Option<int>)
    ensures AllDigits(s) && |s| > 0 ==> r == Some(DigitsValue(s) as int)
    ensures |s| == 0 ==> r.None?
  {
    var t := Strip(s);
    StripDigits(s);
    if |t| > 0 && (t[0] == '-' || t[0] == '+') then
      var body := t[1..];
      if |body| > 0 && AllDigits(body) then
        var v: int := if t[0] == '-' then 0 - DigitsValue(body) as int else DigitsValue(body);
        Some(v)
      else None
    else if |t| > 0 && AllDigits(t) then Some(DigitsValue(t))
    else None
  }

  lemma PythonIntOfNatToString(n: nat)
    ensures PythonInt(NatToString(n)) == Some(n)
  {
  }
}
