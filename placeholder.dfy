/** The placeholder pattern of the dispatch route: for a parameter key, the
    regular expression `{{\s*key\s*}}`, built by string concatenation without
    escaping. Under the key restriction below (no pattern-syntax characters)
    the expression means "two opening braces, white space, the key verbatim,
    white space, two closing braces". */
module Placeholder {
  import opened Wrappers

  /** JavaScript's `\s` class: the WhiteSpace and LineTerminator code points. */
  predicate IsSpace(c: char) {
    || c == '\t' || c == '\n' || c == '\U{B}' || c == '\U{C}' || c == '\r' || c == ' '
    || c == '\U{A0}' || c == '\U{1680}' || '\U{2000}' <= c <= '\U{200A}'
    || c == '\U{2028}' || c == '\U{2029}' || c == '\U{202F}' || c == '\U{205F}'
    || c == '\U{3000}' || c == '\U{FEFF}'
  }

  /** Characters with a meaning of their own in a regular-expression pattern. */
  predicate IsPatternSyntax(c: char) {
    || c == '^' || c == '$' || c == '\\' || c == '.' || c == '*' || c == '+' || c == '?'
    || c == '(' || c == ')' || c == '[' || c == ']' || c == '{' || c == '}' || c == '|'
  }

  /** A key that the unescaped `new RegExp` reads literally. */
  predicate SafeKey(key: string) {
    forall i | 0 <= i < |key| :: !IsPatternSyntax(key[i])
  }

  predicate AllSpace(w: string) {
    forall i | 0 <= i < |w| :: IsSpace(w[i])
  }

  predicate NoSpace(name: string) {
    forall i | 0 <= i < |name| :: !IsSpace(name[i])
  }

  /** `t` is, as a whole, a placeholder for `key`. */
  ghost predicate IsPlaceholder(t: string, key: string) {
    exists w1, w2 {:trigger AllSpace(w1), AllSpace(w2)} | AllSpace(w1) && AllSpace(w2) :: t == "{{" + w1 + key + w2 + "}}"
  }

  /** Some placeholder for `key` starts at index `i` of `s`. */
  ghost predicate PlaceholderAt(s: string, key: string, i: nat) {
    exists j | i < j <= |s| :: IsPlaceholder(s[i..j], key)
  }

  /** Length of the longest run of white space at index `i`. */
  function SpaceRun(t: string, i: nat): (n: nat)
    requires i <= |t|
    ensures i + n <= |t|
    decreases |t| - i
  {
    if i < |t| && IsSpace(t[i]) then 1 + SpaceRun(t, i + 1) else 0
  }

  /** The run is all white space and cannot be extended. */
  lemma {:induction false} SpaceRunSpec(t: string, i: nat)
    requires i <= |t|
    ensures AllSpace(t[i..i + SpaceRun(t, i)])
    ensures i + SpaceRun(t, i) < |t| ==> !IsSpace(t[i + SpaceRun(t, i)])
    decreases |t| - i
  {
    if i < |t| && IsSpace(t[i]) {
      SpaceRunSpec(t, i + 1);
      var n := SpaceRun(t, i);
      assert t[i..i + n] == [t[i]] + t[i + 1..i + n];
    }
  }

  /** The tail `key\s*}}` of the pattern, tried at index `k`: the end of the
      match. The trailing `\s*` is greedy and never needs to give characters
      back, because `}` is not white space. */
  function CloseAfter(t: string, key: string, k: nat): (r: Option<nat>)
    requires k <= |t|
    ensures r.Some? ==> k + |key| + 2 <= r.value <= |t|
  {
    if k + |key| <= |t| && t[k..k + |key|] == key then
      var e := k + |key| + SpaceRun(t, k + |key|);
      if e + 2 <= |t| && t[e..e + 2] == "}}" then Some(e + 2) else None
    else None
  }

  /** A successful close is the key, white space, then `}}`. */
  lemma CloseAfterSpec(t: string, key: string, k: nat)
    requires k <= |t|
    ensures var r := CloseAfter(t, key, k);
      r.Some? ==> t[k..k + |key|] == key && AllSpace(t[k + |key|..r.value - 2])
                  && t[r.value - 2..r.value] == "}}"
  {
    if k + |key| <= |t| {
      SpaceRunSpec(t, k + |key|);
    }
  }

  /** The pattern matched at the start of `t`, with the leading `\s*` taking
      exactly `p` characters and, on failure, backtracking to `p - 1`, as a
      backtracking regular-expression engine does. */
  function TryOpening(t: string, key: string, p: nat): (r: Option<nat>)
    requires 2 + p <= |t|
    ensures r.Some? ==> 4 <= r.value <= |t|
    decreases p
  {
    match CloseAfter(t, key, 2 + p)
    case Some(n) => Some(n)
    case None => if p == 0 then None else TryOpening(t, key, p - 1)
  }

  /** Five consecutive pieces of `t` of the right shapes make a placeholder. */
  lemma Assemble(t: string, key: string, k: nat, x: nat, c: nat, n: nat)
    requires 2 <= k <= x <= c && c + 2 == n && n <= |t|
    requires t[..2] == "{{" && AllSpace(t[2..k]) && t[k..x] == key
    requires AllSpace(t[x..c]) && t[c..n] == "}}"
    ensures IsPlaceholder(t[..n], key)
  {
    var w1, w2 := t[2..k], t[x..c];
    assert t[..n] == t[..2] + w1 + t[k..x] + w2 + t[c..n];
  }

  lemma AllSpaceShorter(t: string, a: nat, b: nat, c: nat)
    requires a <= b <= c <= |t| && AllSpace(t[a..c])
    ensures AllSpace(t[a..b])
  {
    forall i | 0 <= i < b - a
      ensures IsSpace(t[a..b][i])
    {
      assert t[a..b][i] == t[a + i] == t[a..c][i];
    }
  }

  /** A close found after `{{` and white space completes a placeholder. */
  lemma CloseAfterSound(t: string, key: string, k: nat)
    requires 2 <= k <= |t| && t[..2] == "{{" && AllSpace(t[2..k])
    ensures var r := CloseAfter(t, key, k); r.Some? ==> IsPlaceholder(t[..r.value], key)
  {
    var r := CloseAfter(t, key, k);
    if r.Some? {
      CloseAfterSpec(t, key, k);
      Assemble(t, key, k, k + |key|, r.value - 2, r.value);
    }
  }

  lemma {:induction false} TryOpeningSound(t: string, key: string, p: nat)
    requires 2 + p <= |t| && t[..2] == "{{" && AllSpace(t[2..2 + p])
    ensures var r := TryOpening(t, key, p); r.Some? ==> IsPlaceholder(t[..r.value], key)
    decreases p
  {
    match CloseAfter(t, key, 2 + p)
    case Some(n) =>
      CloseAfterSound(t, key, 2 + p);
    case None =>
      if p > 0 {
        AllSpaceShorter(t, 2, 2 + (p - 1), 2 + p);
        TryOpeningSound(t, key, p - 1);
      }
  }

  /** One attempt of the regular expression at the start of `t`: the length
      of the placeholder found there, if any (see MatchPrefixExact). */
  function MatchPrefix(t: string, key: string): (r: Option<nat>)
    ensures r.Some? ==> 4 <= r.value <= |t| && t[0] == '{' && t[1] == '{'
  {
    if 2 <= |t| && t[..2] == "{{" then TryOpening(t, key, SpaceRun(t, 2)) else None
  }

  /** In a placeholder the first `}` is the first closing brace, and `{`
      occurs only in the two opening braces. */
  lemma PlaceholderShape(t: string, key: string)
    requires SafeKey(key)
    ensures IsPlaceholder(t, key) ==>
      && 4 <= |t| && t[..2] == "{{" && t[|t| - 2..] == "}}"
      && (forall m | 0 <= m < |t| - 2 :: t[m] != '}')
      && (forall m | 2 <= m < |t| :: t[m] != '{')
  {
    if IsPlaceholder(t, key) {
      var w1, w2 :| AllSpace(w1) && AllSpace(w2) && t == "{{" + w1 + key + w2 + "}}";
      forall m | 2 <= m < |t| - 2
        ensures t[m] != '}' && t[m] != '{'
      {
        if m < 2 + |w1| {
          assert t[m] == w1[m - 2];
        } else if m < 2 + |w1| + |key| {
          assert t[m] == key[m - 2 - |w1|];
          assert !IsPatternSyntax(key[m - 2 - |w1|]);
        } else {
          assert t[m] == w2[m - 2 - |w1| - |key|];
        }
      }
    }
  }

  /** Where a placeholder starts fixes where it ends. */
  lemma PlaceholderEndUnique(t: string, key: string, n1: nat, n2: nat)
    requires SafeKey(key) && n1 <= |t| && n2 <= |t|
    requires IsPlaceholder(t[..n1], key) && IsPlaceholder(t[..n2], key)
    ensures n1 == n2
  {
    PlaceholderShape(t[..n1], key);
    PlaceholderShape(t[..n2], key);
    assert t[n1 - 2] == t[..n1][n1 - 2] == '}';
    assert t[n2 - 2] == t[..n2][n2 - 2] == '}';
    assert forall m | 0 <= m < n1 - 2 :: t[m] == t[..n1][m];
    assert forall m | 0 <= m < n2 - 2 :: t[m] == t[..n2][m];
  }

  /** A run of white space at index `x` is at most as long as SpaceRun, and
      exactly as long when a non-space follows it. */
  lemma {:induction false} SpaceRunCovers(t: string, x: nat, w: string)
    requires x + |w| <= |t| && t[x..x + |w|] == w && AllSpace(w)
    ensures |w| <= SpaceRun(t, x)
    ensures x + |w| < |t| && !IsSpace(t[x + |w|]) ==> SpaceRun(t, x) == |w|
    decreases |w|
  {
    if w != [] {
      assert t[x] == w[0];
      assert t[x + 1..x + 1 + |w[1..]|] == w[1..];
      SpaceRunCovers(t, x + 1, w[1..]);
    }
  }

  /** The pieces of a placeholder prefix of `t`, as slices of `t`. */
  lemma Disassemble(t: string, key: string, n: nat, w1: string, w2: string, k: nat, x: nat, c: nat)
    requires n <= |t| && t[..n] == "{{" + w1 + key + w2 + "}}"
    requires k == 2 + |w1| && x == k + |key| && c == x + |w2|
    ensures c + 2 == n && t[..2] == "{{" && t[2..k] == w1 && t[k..x] == key
    ensures t[x..c] == w2 && t[c..n] == "}}"
  {
    var u := t[..n];
    assert u[..2] == "{{" && u[2..k] == w1 && u[k..x] == key && u[x..c] == w2 && u[c..n] == "}}";
  }

  /** The closing part of the pattern succeeds right after the opening white
      space of a placeholder. */
  lemma CloseAfterComplete(t: string, key: string, n: nat, w1: string, w2: string)
    requires n <= |t| && AllSpace(w1) && AllSpace(w2) && t[..n] == "{{" + w1 + key + w2 + "}}"
    ensures CloseAfter(t, key, 2 + |w1|) == Some(n)
  {
    var k := 2 + |w1|;
    var x := k + |key|;
    var c := x + |w2|;
    Disassemble(t, key, n, w1, w2, k, x, c);
    assert t[c] == t[c..n][0] == '}';
    SpaceRunCovers(t, x, w2);
  }

  lemma {:induction false} TryOpeningComplete(t: string, key: string, p: nat, n: nat, w1: string, w2: string)
    requires 2 + p <= |t| && t[..2] == "{{" && AllSpace(t[2..2 + p])
    requires n <= |t| && AllSpace(w1) && AllSpace(w2) && t[..n] == "{{" + w1 + key + w2 + "}}"
    requires |w1| <= p
    ensures TryOpening(t, key, p).Some?
    decreases p
  {
    if p == |w1| {
      CloseAfterComplete(t, key, n, w1, w2);
    } else if CloseAfter(t, key, 2 + p).None? {
      assert t[2..2 + (p - 1)] == t[2..2 + p][..p - 1];
      TryOpeningComplete(t, key, p - 1, n, w1, w2);
    }
  }

  /** What the matcher reports is a placeholder. */
  lemma MatchPrefixSound(t: string, key: string)
    ensures var r := MatchPrefix(t, key); r.Some? ==> IsPlaceholder(t[..r.value], key)
  {
    if 2 <= |t| && t[..2] == "{{" {
      SpaceRunSpec(t, 2);
      TryOpeningSound(t, key, SpaceRun(t, 2));
    }
  }

  /** The matcher finds a placeholder at the start of `t`, with its length. */
  lemma MatchPrefixFinds(t: string, key: string, n: nat, w1: string, w2: string)
    requires SafeKey(key) && n <= |t| && AllSpace(w1) && AllSpace(w2)
    requires t[..n] == "{{" + w1 + key + w2 + "}}"
    ensures MatchPrefix(t, key) == Some(n)
  {
    Disassemble(t, key, n, w1, w2, 2 + |w1|, 2 + |w1| + |key|, 2 + |w1| + |key| + |w2|);
    SpaceRunCovers(t, 2, w1);
    SpaceRunSpec(t, 2);
    TryOpeningComplete(t, key, SpaceRun(t, 2), n, w1, w2);
    MatchPrefixSound(t, key);
    assert IsPlaceholder(t[..n], key);
    PlaceholderEndUnique(t, key, MatchPrefix(t, key).value, n);
  }

  /** The matcher reports a match of length `n` at the start of `t` exactly
      when `t[..n]` is a placeholder: it finds every placeholder, with its
      exact length, and reports nothing else. */
  lemma MatchPrefixExact(t: string, key: string, n: nat)
    requires SafeKey(key) && n <= |t|
    ensures MatchPrefix(t, key) == Some(n) <==> IsPlaceholder(t[..n], key)
  {
    MatchPrefixSound(t, key);
    if IsPlaceholder(t[..n], key) {
      var w1, w2 :| AllSpace(w1) && AllSpace(w2) && t[..n] == "{{" + w1 + key + w2 + "}}";
      MatchPrefixFinds(t, key, n, w1, w2);
    }
  }

  /** Every placeholder opens with two braces. */
  lemma PlaceholderOpens(t: string, key: string)
    ensures IsPlaceholder(t, key) ==> 2 <= |t| && t[0] == '{' && t[1] == '{'
  {
    if IsPlaceholder(t, key) {
      var w1, w2 :| AllSpace(w1) && AllSpace(w2) && t == "{{" + w1 + key + w2 + "}}";
    }
  }

  /** Placeholders for one key never overlap: none starts strictly inside
      another. */
  lemma PlaceholdersDisjoint(s: string, key: string, i: nat, j: nat, p: nat)
    requires SafeKey(key) && i < p < j <= |s| && IsPlaceholder(s[i..j], key)
    ensures !PlaceholderAt(s, key, p)
  {
    PlaceholderShape(s[i..j], key);
    assert p - i >= 2 ==> s[p] == s[i..j][p - i];
    assert p - i < 2 ==> s[p + 1] == s[i..j][2];
    forall j' | p < j' <= |s|
      ensures !IsPlaceholder(s[p..j'], key)
    {
      PlaceholderOpens(s[p..j'], key);
      assert p + 1 < j' ==> s[p..j'][0] == s[p] && s[p..j'][1] == s[p + 1];
    }
  }

  /** A `{{name}}` with no white space in `name` is a placeholder for `name`
      only: `{{nametag}}` is not one for `name`. */
  lemma OtherNameNotPlaceholder(name: string, key: string)
    requires NoSpace(name)
    requires name != key
    ensures !IsPlaceholder("{{" + name + "}}", key)
  {
    var u := "{{" + name + "}}";
    assert u[2..|u| - 2] == name;
    assert !IsSpace(u[2]) && !IsSpace(u[|u| - 3]);
    forall w1, w2 | AllSpace(w1) && AllSpace(w2)
      ensures u != "{{" + w1 + key + w2 + "}}"
    {
      var t := "{{" + w1 + key + w2 + "}}";
      if w1 != [] {
        assert t[2] == w1[0];
      } else if w2 != [] {
        assert t[|t| - 3] == w2[|w2| - 1];
      } else {
        assert t[2..|t| - 2] == key;
      }
    }
  }

  /** At a `{{name}}` for another name the matcher finds nothing. */
  lemma OtherNameNoMatch(name: string, rest: string, key: string)
    requires SafeKey(key) && SafeKey(name)
    requires NoSpace(name)
    requires name != key
    ensures MatchPrefix("{{" + name + "}}" + rest, key).None?
  {
    var u := "{{" + name + "}}";
    var t := u + rest;
    OtherNameNotPlaceholder(name, key);
    forall n | 0 <= n <= |t|
      ensures !IsPlaceholder(t[..n], key)
    {
      PlaceholderShape(t[..n], key);
      if n < |u| {
        assert 2 <= n - 2 ==> t[..n][n - 2] == name[n - 4];
        assert 2 <= n - 2 ==> !IsPatternSyntax(name[n - 4]);
      } else if n > |u| {
        assert t[..n][|u| - 2] == '}';
      } else {
        assert t[..n] == u;
      }
    }
    MatchPrefixSound(t, key);
  }

  /** `{{key}}` without white space is a placeholder for `key`. */
  lemma PlainPlaceholder(key: string)
    ensures IsPlaceholder("{{" + key + "}}", key)
  {
    assert AllSpace([]);
    assert "{{" + key + "}}" == "{{" + [] + key + [] + "}}";
  }

  /** At a placeholder for another name that is not also a placeholder for
      the key, such as `{{ venue }}` for the key `name`, the matcher finds
      nothing, whatever follows. */
  lemma OtherPlaceholderNoMatch(t: string, name: string, rest: string, key: string)
    requires SafeKey(key) && SafeKey(name) && IsPlaceholder(t, name) && !IsPlaceholder(t, key)
    ensures MatchPrefix(t + rest, key).None?
  {
    var s := t + rest;
    PlaceholderShape(t, name);
    forall n | 0 <= n <= |s|
      ensures !IsPlaceholder(s[..n], key)
    {
      PlaceholderShape(s[..n], key);
      if n < |t| {
        assert 2 <= n ==> s[..n][n - 2] == t[n - 2];
      } else if n > |t| {
        assert s[..n][|t| - 2] == t[|t| - 2];
      } else {
        assert s[..n] == t;
      }
    }
    MatchPrefixSound(s, key);
  }

  /** Which characters of `w1 + name + w2` are white space. */
  lemma SpacePattern(inner: string, w1: string, name: string, w2: string)
    requires AllSpace(w1) && AllSpace(w2) && NoSpace(name) && inner == w1 + name + w2
    ensures forall i | 0 <= i < |inner| :: IsSpace(inner[i]) <==> (i < |w1| || |w1| + |name| <= i)
  {
    forall i | 0 <= i < |inner|
      ensures IsSpace(inner[i]) <==> (i < |w1| || |w1| + |name| <= i)
    {
      if i < |w1| {
        assert inner[i] == w1[i];
      } else if i < |w1| + |name| {
        assert inner[i] == name[i - |w1|];
      } else {
        assert inner[i] == w2[i - |w1| - |name|];
      }
    }
  }

  lemma InsideBraces(t: string, w1: string, name: string, w2: string)
    requires t == "{{" + w1 + name + w2 + "}}"
    ensures t[2..|t| - 2] == w1 + name + w2
  {
  }

  /** A placeholder names one key without white space only: `{{ venue }}` is
      a placeholder for `venue` and for no other such key. */
  lemma PlaceholderNamesOneKey(t: string, name: string, key: string)
    requires NoSpace(name) && NoSpace(key) && IsPlaceholder(t, name) && IsPlaceholder(t, key)
    ensures name == key
  {
    var w1, w2 :| AllSpace(w1) && AllSpace(w2) && t == "{{" + w1 + name + w2 + "}}";
    var v1, v2 :| AllSpace(v1) && AllSpace(v2) && t == "{{" + v1 + key + v2 + "}}";
    var inner := t[2..|t| - 2];
    InsideBraces(t, w1, name, w2);
    InsideBraces(t, v1, key, v2);
    SpacePattern(inner, w1, name, w2);
    SpacePattern(inner, v1, key, v2);
    assert name != [] ==> !IsSpace(inner[|w1|]) && !IsSpace(inner[|w1| + |name| - 1]);
    assert key != [] ==> !IsSpace(inner[|v1|]) && !IsSpace(inner[|v1| + |key| - 1]);
    assert name == inner[|w1|..|w1| + |name|];
    assert key == inner[|v1|..|v1| + |key|];
  }
}
