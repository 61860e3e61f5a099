/** Rendering of a template body: JavaScript's global `String.prototype.replace`
    for the placeholder pattern, and the pass over the parameter entries that
    rewrites the running message once per entry. */
module Interpolation {
  import opened Wrappers
  import opened Placeholder

  /** A replacement string with no `$` patterns (`$&`, `$1`, `$$`, ...), so
      that it is inserted verbatim. */
  predicate PlainValue(value: string) {
    '$' !in value
  }

  /** `s.replace(new RegExp("{{\\s*" + key + "\\s*}}", "g"), value)` as a
      left-to-right scan: where a placeholder starts it is replaced by `value`
      and the scan resumes after it; elsewhere one character is copied. */
  function ReplaceAll(s: string, key: string, value: string): string
    requires SafeKey(key) && PlainValue(value)
    decreases |s|
  {
    if s == [] then []
    else match MatchPrefix(s, key)
      case Some(n) => value + ReplaceAll(s[n..], key, value)
      case None => [s[0]] + ReplaceAll(s[1..], key, value)
  }

  /** A matched span `[start, end)` of the subject string. */
  datatype Span = Span(start: nat, end: nat)

  /** No placeholder for `key` starts in `[from, to)`. */
  ghost predicate NoneBetween(s: string, key: string, from: nat, to: nat) {
    forall p | from <= p < to :: !PlaceholderAt(s, key, p)
  }

  /** `m` lists, in order, the matches a global search of `s` from index
      `from` reports: the first span is a placeholder with none starting
      before it, and the search goes on from its end; with no span left, no
      placeholder starts in the rest of `s`. */
  ghost predicate LeftmostMatches(s: string, key: string, m: seq<Span>, from: nat)
    decreases |m|
  {
    && from <= |s|
    && if m == [] then NoneBetween(s, key, from, |s| + 1)
       else
         && from <= m[0].start < m[0].end <= |s|
         && NoneBetween(s, key, from, m[0].start)
         && IsPlaceholder(s[m[0].start..m[0].end], key)
         && LeftmostMatches(s, key, m[1..], m[0].end)
  }

  /** Spans inside `s[from..]`, in increasing order and pairwise disjoint. */
  predicate Ascending(s: string, m: seq<Span>, from: nat)
    decreases |m|
  {
    && from <= |s|
    && (m != [] ==> from <= m[0].start <= m[0].end <= |s| && Ascending(s, m[1..], m[0].end))
  }

  lemma {:induction false} LeftmostAscending(s: string, key: string, m: seq<Span>, from: nat)
    requires LeftmostMatches(s, key, m, from)
    ensures Ascending(s, m, from)
    decreases |m|
  {
    if m != [] {
      LeftmostAscending(s, key, m[1..], m[0].end);
    }
  }

  /** The end of the placeholder the matcher finds at index `i` of `s`. */
  function MatchEnd(s: string, key: string, i: nat): (r: Option<nat>)
    requires i <= |s|
    ensures r.Some? ==> i < r.value <= |s|
  {
    match MatchPrefix(s[i..], key)
    case Some(n) => Some(i + n)
    case None => None
  }

  /** The matches the global expression reports from index `i` on, each
      search starting where the previous match ended. */
  function Occurrences(s: string, key: string, i: nat): (m: seq<Span>)
    requires i <= |s|
    ensures Ascending(s, m, i)
    decreases |s| - i
  {
    if i == |s| then []
    else match MatchEnd(s, key, i)
      case Some(j) => [Span(i, j)] + Occurrences(s, key, j)
      case None => Occurrences(s, key, i + 1)
  }

  /** There is no placeholder at `i` when the matcher finds none there. */
  lemma NoMatchNoPlaceholder(s: string, key: string, i: nat)
    requires SafeKey(key) && i <= |s|
    ensures MatchEnd(s, key, i).None? ==> !PlaceholderAt(s, key, i)
  {
    if MatchEnd(s, key, i).None? {
      forall j | i < j <= |s|
        ensures !IsPlaceholder(s[i..j], key)
      {
        MatchPrefixExact(s[i..], key, j - i);
        assert s[i..][..j - i] == s[i..j];
      }
    }
  }

  /** What the matcher finds at `i` is a placeholder. */
  lemma MatchIsPlaceholder(s: string, key: string, i: nat, j: nat)
    requires i <= |s| && MatchEnd(s, key, i) == Some(j)
    ensures IsPlaceholder(s[i..j], key)
  {
    MatchPrefixSound(s[i..], key);
    assert s[i..][..j - i] == s[i..j];
  }

  lemma OccurrencesAtMatch(s: string, key: string, i: nat, j: nat)
    requires i < |s| && MatchEnd(s, key, i) == Some(j)
    ensures Occurrences(s, key, i) == [Span(i, j)] + Occurrences(s, key, j)
  {
  }

  lemma OccurrencesAtNoMatch(s: string, key: string, i: nat)
    requires i < |s| && MatchEnd(s, key, i).None?
    ensures Occurrences(s, key, i) == Occurrences(s, key, i + 1)
  {
  }

  lemma LeftmostCons(s: string, key: string, m: seq<Span>, i: nat, j: nat)
    requires i < j <= |s| && IsPlaceholder(s[i..j], key) && LeftmostMatches(s, key, m, j)
    ensures LeftmostMatches(s, key, [Span(i, j)] + m, i)
  {
    assert ([Span(i, j)] + m)[1..] == m;
  }

  lemma LeftmostSkip(s: string, key: string, m: seq<Span>, i: nat)
    requires !PlaceholderAt(s, key, i) && LeftmostMatches(s, key, m, i + 1)
    ensures LeftmostMatches(s, key, m, i)
  {
    if m == [] {
      assert NoneBetween(s, key, i, |s| + 1);
    } else {
      assert NoneBetween(s, key, i, m[0].start);
    }
  }

  /** The reported matches are the leftmost non-overlapping placeholders. */
  lemma {:induction false} OccurrencesLeftmost(s: string, key: string, i: nat)
    requires SafeKey(key) && i <= |s|
    ensures LeftmostMatches(s, key, Occurrences(s, key, i), i)
    decreases |s| - i
  {
    NoMatchNoPlaceholder(s, key, i);
    if i < |s| {
      match MatchEnd(s, key, i)
      case Some(j) =>
        MatchIsPlaceholder(s, key, i, j);
        OccurrencesLeftmost(s, key, j);
        OccurrencesAtMatch(s, key, i, j);
        LeftmostCons(s, key, Occurrences(s, key, j), i, j);
      case None =>
        OccurrencesLeftmost(s, key, i + 1);
        OccurrencesAtNoMatch(s, key, i);
        LeftmostSkip(s, key, Occurrences(s, key, i + 1), i);
    }
  }

  /** The result assembled as the ECMAScript replace algorithm does: the text
      before each span, then `value`, and after the last span the rest of
      `s`. */
  function Splice(s: string, m: seq<Span>, value: string, from: nat): string
    requires Ascending(s, m, from)
    decreases |m|
  {
    if m == [] then s[from..]
    else s[from..m[0].start] + value + Splice(s, m[1..], value, m[0].end)
  }

  lemma SpliceStep(s: string, m: seq<Span>, value: string, i: nat)
    requires i < |s| && Ascending(s, m, i + 1)
    ensures Ascending(s, m, i)
    ensures Splice(s, m, value, i) == [s[i]] + Splice(s, m, value, i + 1)
  {
    if m == [] {
      assert s[i..] == [s[i]] + s[i + 1..];
    } else {
      var start, end := m[0].start, m[0].end;
      var tail := Splice(s, m[1..], value, end);
      assert Splice(s, m, value, i) == s[i..start] + value + tail;
      assert Splice(s, m, value, i + 1) == s[i + 1..start] + value + tail;
      ConsPiece(s, i, start, value, tail);
    }
  }

  lemma ConsPiece(s: string, i: nat, start: nat, value: string, tail: string)
    requires i < start <= |s|
    ensures s[i..start] + value + tail == [s[i]] + (s[i + 1..start] + value + tail)
  {
    assert s[i..start] == [s[i]] + s[i + 1..start];
  }

  lemma SpliceCons(s: string, rest: seq<Span>, value: string, i: nat, j: nat)
    requires i < j && Ascending(s, rest, j)
    ensures Ascending(s, [Span(i, j)] + rest, i)
    ensures Splice(s, [Span(i, j)] + rest, value, i) == value + Splice(s, rest, value, j)
  {
    var m := [Span(i, j)] + rest;
    assert m[1..] == rest && s[i..i] == [];
  }

  lemma SpliceMatch(s: string, key: string, value: string, i: nat, j: nat)
    requires i < |s| && MatchEnd(s, key, i) == Some(j)
    ensures Splice(s, Occurrences(s, key, i), value, i) == value + Splice(s, Occurrences(s, key, j), value, j)
  {
    OccurrencesAtMatch(s, key, i, j);
    SpliceCons(s, Occurrences(s, key, j), value, i, j);
  }

  lemma SpliceCopy(s: string, key: string, value: string, i: nat)
    requires i < |s| && MatchEnd(s, key, i).None?
    ensures Splice(s, Occurrences(s, key, i), value, i) == [s[i]] + Splice(s, Occurrences(s, key, i + 1), value, i + 1)
  {
    OccurrencesAtNoMatch(s, key, i);
    SpliceStep(s, Occurrences(s, key, i + 1), value, i);
  }

  lemma ReplaceAllAtMatch(s: string, key: string, value: string, i: nat, j: nat)
    requires SafeKey(key) && PlainValue(value) && i < |s| && MatchEnd(s, key, i) == Some(j)
    ensures ReplaceAll(s[i..], key, value) == value + ReplaceAll(s[j..], key, value)
  {
    assert s[i..][j - i..] == s[j..];
  }

  lemma ReplaceAllAtNoMatch(s: string, key: string, value: string, i: nat)
    requires SafeKey(key) && PlainValue(value) && i < |s| && MatchEnd(s, key, i).None?
    ensures ReplaceAll(s[i..], key, value) == [s[i]] + ReplaceAll(s[i + 1..], key, value)
  {
    assert s[i..][1..] == s[i + 1..];
  }

  /** Where no placeholder starts, one character is copied. */
  lemma ReplaceAllCopies(t: string, key: string, value: string)
    requires SafeKey(key) && PlainValue(value) && t != [] && MatchPrefix(t, key).None?
    ensures ReplaceAll(t, key, value) == [t[0]] + ReplaceAll(t[1..], key, value)
  {
  }

  /** Where a placeholder starts, it is replaced by `value`. */
  lemma ReplaceAllReplaces(t: string, key: string, value: string, n: nat)
    requires SafeKey(key) && PlainValue(value) && MatchPrefix(t, key) == Some(n)
    ensures ReplaceAll(t, key, value) == value + ReplaceAll(t[n..], key, value)
  {
  }

  /** The scan agrees with the ECMAScript algorithm: the leftmost
      non-overlapping placeholders (Occurrences, LeftmostMatches) are each
      replaced by `value`, and the text around them is copied unchanged. */
  lemma {:induction false} ReplaceAllSplices(s: string, key: string, value: string, i: nat)
    requires SafeKey(key) && PlainValue(value) && i <= |s|
    ensures ReplaceAll(s[i..], key, value) == Splice(s, Occurrences(s, key, i), value, i)
    decreases |s| - i
  {
    if i == |s| {
      assert s[i..] == [];
    } else {
      match MatchEnd(s, key, i)
      case Some(j) =>
        ReplaceAllAtMatch(s, key, value, i, j);
        ReplaceAllSplices(s, key, value, j);
        SpliceMatch(s, key, value, i, j);
      case None =>
        ReplaceAllAtNoMatch(s, key, value, i);
        ReplaceAllSplices(s, key, value, i + 1);
        SpliceCopy(s, key, value, i);
    }
  }

  /** A list of leftmost matches starting at or before any placeholder. */
  lemma LeftmostFirst(s: string, key: string, m: seq<Span>, from: nat, p: nat)
    requires LeftmostMatches(s, key, m, from) && from <= p && PlaceholderAt(s, key, p)
    ensures m != [] && m[0].start <= p
  {
  }

  /** Two lists of leftmost matches from one index are both empty or
      start at the same index. */
  lemma LeftmostSameStart(s: string, key: string, m1: seq<Span>, m2: seq<Span>, from: nat)
    requires LeftmostMatches(s, key, m1, from) && LeftmostMatches(s, key, m2, from)
    ensures m1 == [] <==> m2 == []
    ensures m1 != [] ==> m1[0].start == m2[0].start
  {
    if m1 != [] {
      assert IsPlaceholder(s[m1[0].start..m1[0].end], key);
      LeftmostFirst(s, key, m2, from, m1[0].start);
    }
    if m2 != [] {
      assert IsPlaceholder(s[m2[0].start..m2[0].end], key);
      LeftmostFirst(s, key, m1, from, m2[0].start);
    }
  }

  lemma SliceOfSlice(s: string, st: nat, e: nat)
    requires st <= e <= |s|
    ensures s[st..][..e - st] == s[st..e]
  {
  }

  /** Two placeholders starting at the same index end at the same index. */
  lemma SameStartSameEnd(s: string, key: string, st: nat, e1: nat, e2: nat)
    requires SafeKey(key) && st <= e1 <= |s| && st <= e2 <= |s|
    requires IsPlaceholder(s[st..e1], key) && IsPlaceholder(s[st..e2], key)
    ensures e1 == e2
  {
    SliceOfSlice(s, st, e1);
    SliceOfSlice(s, st, e2);
    PlaceholderEndUnique(s[st..], key, e1 - st, e2 - st);
  }

  /** The leftmost non-overlapping matches are determined by the subject: two
      such lists from the same index are equal. */
  lemma {:induction false} LeftmostUnique(s: string, key: string, m1: seq<Span>, m2: seq<Span>, from: nat)
    requires SafeKey(key) && LeftmostMatches(s, key, m1, from) && LeftmostMatches(s, key, m2, from)
    ensures m1 == m2
    decreases |m1|
  {
    LeftmostSameStart(s, key, m1, m2, from);
    if m1 != [] {
      SameStartSameEnd(s, key, m1[0].start, m1[0].end, m2[0].end);
      LeftmostUnique(s, key, m1[1..], m2[1..], m1[0].end);
      assert m1 == [m1[0]] + m1[1..] && m2 == [m2[0]] + m2[1..];
    }
  }

  /** Global replacement is the splice of the leftmost non-overlapping
      placeholders, whichever way they are found. */
  lemma ReplaceAllIsSplice(s: string, key: string, value: string, m: seq<Span>)
    requires SafeKey(key) && PlainValue(value) && LeftmostMatches(s, key, m, 0)
    ensures Ascending(s, m, 0) && ReplaceAll(s, key, value) == Splice(s, m, value, 0)
  {
    LeftmostAscending(s, key, m, 0);
    OccurrencesLeftmost(s, key, 0);
    LeftmostUnique(s, key, m, Occurrences(s, key, 0), 0);
    ReplaceAllSplices(s, key, value, 0);
    assert s[0..] == s;
  }

  /** A subject holding no placeholder for `key` is returned unchanged. */
  lemma ReplaceAllWithoutPlaceholder(s: string, key: string, value: string)
    requires SafeKey(key) && PlainValue(value)
    requires forall p | 0 <= p <= |s| :: !PlaceholderAt(s, key, p)
    ensures ReplaceAll(s, key, value) == s
  {
    assert s[0..] == s;
    ReplaceAllSplices(s, key, value, 0);
    OccurrencesLeftmost(s, key, 0);
    var m := Occurrences(s, key, 0);
    assert m != [] ==> PlaceholderAt(s, key, m[0].start);
    assert m == [];
  }

  /** No two adjacent opening braces anywhere in `s`. */
  predicate NoDoubleBrace(s: string) {
    forall p | 0 <= p < |s| - 1 :: !(s[p] == '{' && s[p + 1] == '{')
  }

  /** Whatever the key, a subject without `{{` is returned unchanged. */
  lemma ReplaceAllWithoutBraces(s: string, key: string, value: string)
    requires SafeKey(key) && PlainValue(value) && NoDoubleBrace(s)
    ensures ReplaceAll(s, key, value) == s
  {
    forall p, j | 0 <= p < j <= |s|
      ensures !IsPlaceholder(s[p..j], key)
    {
      PlaceholderOpens(s[p..j], key);
      assert p + 1 < j ==> s[p..j][0] == s[p] && s[p..j][1] == s[p + 1];
    }
    ReplaceAllWithoutPlaceholder(s, key, value);
  }

  /** A character where the matcher finds nothing is copied as it is. */
  lemma ReplaceAllUnmatched(c: char, u: string, key: string, value: string)
    requires SafeKey(key) && PlainValue(value) && MatchPrefix([c] + u, key).None?
    ensures ReplaceAll([c] + u, key, value) == [c] + ReplaceAll(u, key, value)
  {
    var t := [c] + u;
    assert t[0] == c && t[1..] == u;
    ReplaceAllCopies(t, key, value);
  }

  /** A character other than `{` is copied as it is. */
  lemma ReplaceAllAfterChar(c: char, u: string, key: string, value: string)
    requires SafeKey(key) && PlainValue(value) && c != '{'
    ensures ReplaceAll([c] + u, key, value) == [c] + ReplaceAll(u, key, value)
  {
    assert ([c] + u)[0] == c;
    ReplaceAllUnmatched(c, u, key, value);
  }

  /** Text without `{` is copied as it is; the scan goes on after it. */
  lemma {:induction false} ReplaceAllAfterText(a: string, rest: string, key: string, value: string)
    requires SafeKey(key) && PlainValue(value) && '{' !in a
    ensures ReplaceAll(a + rest, key, value) == a + ReplaceAll(rest, key, value)
    decreases |a|
  {
    var r := ReplaceAll(rest, key, value);
    if a != [] {
      var c, u := a[0], a[1..];
      FirstChar(a, rest, r);
      ReplaceAllAfterChar(c, u + rest, key, value);
      ReplaceAllAfterText(u, rest, key, value);
    } else {
      assert a + rest == rest && a + r == r;
    }
  }

  lemma FirstChar(a: string, rest: string, r: string)
    requires a != [] && '{' !in a
    ensures a + rest == [a[0]] + (a[1..] + rest)
    ensures [a[0]] + (a[1..] + r) == a + r
    ensures a[0] != '{' && '{' !in a[1..]
  {
    assert a[0] in a;
    assert a == [a[0]] + a[1..];
  }

  /** A placeholder for `key` at the front is replaced by `value`. */
  lemma ReplaceAllAfterPlaceholder(t: string, rest: string, key: string, value: string)
    requires SafeKey(key) && PlainValue(value) && IsPlaceholder(t, key)
    ensures ReplaceAll(t + rest, key, value) == value + ReplaceAll(rest, key, value)
  {
    assert (t + rest)[..|t|] == t;
    MatchPrefixExact(t + rest, key, |t|);
    PlaceholderShape(t, key);
    assert (t + rest)[|t|..] == rest;
  }

  /** A subject that is one whole placeholder becomes the value. */
  lemma ReplaceAllWhole(t: string, key: string, value: string)
    requires SafeKey(key) && PlainValue(value) && IsPlaceholder(t, key)
    ensures ReplaceAll(t, key, value) == value
  {
    ReplaceAllAfterPlaceholder(t, [], key, value);
    assert t + [] == t && value + [] == value;
  }

  /** Past its opening pair, a placeholder for a safe name has no `{`. */
  lemma PlaceholderInner(t: string, name: string)
    requires SafeKey(name) && IsPlaceholder(t, name)
    ensures 4 <= |t| && t[0] == '{' && t[1] == '{' && t[2] != '{' && '{' !in t[2..]
  {
    PlaceholderShape(t, name);
    assert forall i | 0 <= i < |t| - 2 :: t[2..][i] == t[i + 2];
  }

  /** A `{` followed by anything but `{` is copied verbatim. */
  lemma ReplaceAllAfterSingleBrace(v: string, key: string, value: string)
    requires SafeKey(key) && PlainValue(value) && v != [] && v[0] != '{'
    ensures ReplaceAll(['{'] + v, key, value) == ['{'] + ReplaceAll(v, key, value)
  {
    assert (['{'] + v)[..2][1] == v[0];
    ReplaceAllUnmatched('{', v, key, value);
  }

  /** The two opening braces of `t`, taken off one by one. */
  lemma OpeningApart(t: string, rest: string, r: string)
    requires 2 <= |t| && t[0] == '{' && t[1] == '{'
    ensures t + rest == ['{'] + (['{'] + (t[2..] + rest))
    ensures t + r == ['{'] + (['{'] + (t[2..] + r))
  {
    assert t == ['{'] + (['{'] + t[2..]);
  }

  /** An opening `{{` where the matcher fails, followed by text without `{`,
      is copied verbatim. */
  lemma ReplaceAllAfterOpening(t: string, rest: string, key: string, value: string)
    requires SafeKey(key) && PlainValue(value)
    requires 3 <= |t| && t[0] == '{' && t[1] == '{' && t[2] != '{' && '{' !in t[2..]
    requires MatchPrefix(t + rest, key).None?
    ensures ReplaceAll(t + rest, key, value) == t + ReplaceAll(rest, key, value)
  {
    var v := t[2..] + rest;
    OpeningApart(t, rest, ReplaceAll(rest, key, value));
    ReplaceAllUnmatched('{', ['{'] + v, key, value);
    assert v[0] == t[2];
    ReplaceAllAfterSingleBrace(v, key, value);
    ReplaceAllAfterText(t[2..], rest, key, value);
  }

  /** A placeholder for another name that the key's pattern does not match,
      with or without white space inside its braces (`{{ venue }}` for the
      key `name`), is copied verbatim; the scan goes on after it. */
  lemma ReplaceAllAfterOtherPlaceholder(t: string, name: string, rest: string, key: string, value: string)
    requires SafeKey(key) && PlainValue(value) && SafeKey(name)
    requires IsPlaceholder(t, name) && !IsPlaceholder(t, key)
    ensures ReplaceAll(t + rest, key, value) == t + ReplaceAll(rest, key, value)
  {
    PlaceholderInner(t, name);
    OtherPlaceholderNoMatch(t, name, rest, key);
    ReplaceAllAfterOpening(t, rest, key, value);
  }

  /** `{{name}}` for another name without white space is copied verbatim:
      `{{nametag}}` is not touched by the key `name`. */
  lemma ReplaceAllAfterOtherName(name: string, rest: string, key: string, value: string)
    requires SafeKey(key) && PlainValue(value) && SafeKey(name)
    requires NoSpace(name)
    requires name != key
    ensures ReplaceAll("{{" + name + "}}" + rest, key, value)
         == "{{" + name + "}}" + ReplaceAll(rest, key, value)
  {
    PlainPlaceholder(name);
    OtherNameNotPlaceholder(name, key);
    ReplaceAllAfterOtherPlaceholder("{{" + name + "}}", name, rest, key, value);
  }

  /** A match found in `a + u`, where `u` opens with `{{`, lies inside `a`:
      a placeholder has no `{` past its opening pair. */
  lemma MatchStaysInside(a: string, u: string, key: string)
    requires SafeKey(key) && a != [] && 2 <= |u| && u[0] == '{' && u[1] == '{'
    ensures var r := MatchPrefix(a + u, key);
      r.Some? ==> r.value <= |a| && MatchPrefix(a, key) == r
  {
    var t := a + u;
    var r := MatchPrefix(t, key);
    if r.Some? {
      var n := r.value;
      MatchPrefixSound(t, key);
      PlaceholderShape(t[..n], key);
      assert forall m | 2 <= m < n :: t[m] != '{' by {
        forall m | 2 <= m < n ensures t[m] != '{' {
          assert t[m] == t[..n][m];
        }
      }
      assert t[|a|] == '{' && t[|a| + 1] == '{';
      assert a[..n] == t[..n];
      MatchPrefixExact(a, key, n);
    }
  }

  /** A match found at the front of `a` is found at the front of `a + u`. */
  lemma MatchExtends(a: string, u: string, key: string)
    requires SafeKey(key)
    ensures MatchPrefix(a, key).Some? ==> MatchPrefix(a + u, key) == MatchPrefix(a, key)
  {
    var r := MatchPrefix(a, key);
    if r.Some? {
      MatchPrefixSound(a, key);
      assert (a + u)[..r.value] == a[..r.value];
      MatchPrefixExact(a + u, key, r.value);
    }
  }

  lemma Regroup(x: string, y: string, z: string)
    ensures x + (y + z) == (x + y) + z
  {
  }

  /** A subject cut just before a `{{` is replaced piece by piece: no match
      starting before the cut reaches past it. */
  lemma {:induction false} ReplaceAllCut(a: string, u: string, key: string, value: string)
    requires SafeKey(key) && PlainValue(value) && 2 <= |u| && u[0] == '{' && u[1] == '{'
    ensures ReplaceAll(a + u, key, value) == ReplaceAll(a, key, value) + ReplaceAll(u, key, value)
    decreases |a|
  {
    var s := a + u;
    var r := ReplaceAll(u, key, value);
    if a == [] {
      assert s == u;
    } else {
      MatchStaysInside(a, u, key);
      MatchExtends(a, u, key);
      match MatchPrefix(s, key)
      case None =>
        assert s[0] == a[0] && s[1..] == a[1..] + u;
        ReplaceAllCopies(s, key, value);
        ReplaceAllCopies(a, key, value);
        ReplaceAllCut(a[1..], u, key, value);
        Regroup([a[0]], ReplaceAll(a[1..], key, value), r);
      case Some(n) =>
        assert s[n..] == a[n..] + u;
        ReplaceAllReplaces(s, key, value, n);
        ReplaceAllReplaces(a, key, value, n);
        ReplaceAllCut(a[n..], u, key, value);
        Regroup(value, ReplaceAll(a[n..], key, value), r);
    }
  }

  /** Wherever it stands, a placeholder for another name that the key's
      pattern does not match is left verbatim, and the pass treats the text
      before and after it as if the placeholder split the subject in two. */
  lemma ReplaceAllAroundOtherName(a: string, t: string, name: string, rest: string, key: string, value: string)
    requires SafeKey(key) && PlainValue(value) && SafeKey(name)
    requires IsPlaceholder(t, name) && !IsPlaceholder(t, key)
    ensures ReplaceAll(a + (t + rest), key, value) == ReplaceAll(a, key, value) + (t + ReplaceAll(rest, key, value))
  {
    PlaceholderInner(t, name);
    ReplaceAllCut(a, t + rest, key, value);
    ReplaceAllAfterOtherPlaceholder(t, name, rest, key, value);
  }
}
