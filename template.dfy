/**
 * The two log templates that OptionalXRequestIDFormatter derives from a
 * caller-supplied format string (x_request_id_middleware/logging_config.py).
 *
 * The source rewrites the string with the regular expression
 * `\[\s*%\(\w+\)s\s*\]`, with `str.strip()` and with `\s+ -> " "`. Here the
 * regular expression is an explicit matcher at one position (MatchToken) and
 * a left-to-right, non-overlapping scan that rewrites every match (Sub), as
 * `re.sub` without a count does.
 */
module Template {
  import opened Wrappers

  // ---------------------------------------------------------------------
  // Character classes
  // ---------------------------------------------------------------------

  /** Python's whitespace: the characters for which `str.isspace()` holds,
    * which is also what `\s` matches in a `str` pattern. */
  predicate IsSpace(c: char) {
    '\U{9}' <= c <= '\U{d}' || '\U{1c}' <= c <= ' '
    || c == '\U{85}' || c == '\U{a0}' || c == '\U{1680}'
    || '\U{2000}' <= c <= '\U{200a}' || c == '\U{2028}' || c == '\U{2029}'
    || c == '\U{202f}' || c == '\U{205f}' || c == '\U{3000}'
  }

  /** A character matched by `\w`, restricted to ASCII letters, digits and `_`. */
  predicate IsWordChar(c: char) {
    'a' <= c <= 'z' || 'A' <= c <= 'Z' || '0' <= c <= '9' || c == '_'
  }

  predicate AllSpace(s: string) {
    forall i :: 0 <= i < |s| ==> IsSpace(s[i])
  }

  predicate AllWord(s: string) {
    forall i :: 0 <= i < |s| ==> IsWordChar(s[i])
  }

  predicate NoSpace(s: string) {
    forall i :: 0 <= i < |s| ==> !IsSpace(s[i])
  }

  /** The end of the whitespace run that starts at `i` (greedy `\s*`). */
  function SkipSpaces(s: string, i: nat): (j: nat)
    requires i <= |s|
    ensures i <= j <= |s|
    ensures j < |s| ==> !IsSpace(s[j])
    decreases |s| - i
  {
    if i < |s| && IsSpace(s[i]) then SkipSpaces(s, i + 1) else i
  }

  /** The end of the word-character run that starts at `i` (greedy `\w*`). */
  function SkipWord(s: string, i: nat): (j: nat)
    requires i <= |s|
    ensures i <= j <= |s|
    ensures j < |s| ==> !IsWordChar(s[j])
    decreases |s| - i
  {
    if i < |s| && IsWordChar(s[i]) then SkipWord(s, i + 1) else i
  }

  /** The end of the non-whitespace run that starts at `i`. */
  function SkipNonSpace(s: string, i: nat): (j: nat)
    requires i <= |s|
    ensures i <= j <= |s|
    ensures j < |s| ==> IsSpace(s[j])
    decreases |s| - i
  {
    if i < |s| && !IsSpace(s[i]) then SkipNonSpace(s, i + 1) else i
  }

  /** Everything SkipSpaces steps over is in its class. */
  lemma {:induction false} SkipSpacesRun(s: string, i: nat)
    requires i <= |s|
    ensures AllSpace(s[i..SkipSpaces(s, i)])
    decreases |s| - i
  {
    if i < |s| && IsSpace(s[i]) {
      SkipSpacesRun(s, i + 1);
      var j := SkipSpaces(s, i);
      assert s[i..j][1..] == s[i + 1..j];
    }
  }

  /** Everything SkipWord steps over is in its class. */
  lemma {:induction false} SkipWordRun(s: string, i: nat)
    requires i <= |s|
    ensures AllWord(s[i..SkipWord(s, i)])
    decreases |s| - i
  {
    if i < |s| && IsWordChar(s[i]) {
      SkipWordRun(s, i + 1);
      var j := SkipWord(s, i);
      assert s[i..j][1..] == s[i + 1..j];
    }
  }

  /** Everything SkipNonSpace steps over is in its class. */
  lemma {:induction false} SkipNonSpaceRun(s: string, i: nat)
    requires i <= |s|
    ensures NoSpace(s[i..SkipNonSpace(s, i)])
    decreases |s| - i
  {
    if i < |s| && !IsSpace(s[i]) {
      SkipNonSpaceRun(s, i + 1);
      var j := SkipNonSpace(s, i);
      assert s[i..j][1..] == s[i + 1..j];
    }
  }

  /** A greedy run ends where the first character outside the class is:
    * any index with the same two properties is the one SkipSpaces returns. */
  lemma {:induction false} SkipSpacesUnique(s: string, i: nat, k: nat)
    requires i <= k <= |s| && AllSpace(s[i..k]) && (k < |s| ==> !IsSpace(s[k]))
    ensures SkipSpaces(s, i) == k
    decreases k - i
  {
    if i < k {
      assert s[i..k][0] == s[i];
      assert s[i + 1..k] == s[i..k][1..];
      SkipSpacesUnique(s, i + 1, k);
    }
  }


  lemma {:induction false} SkipWordUnique(s: string, i: nat, k: nat)
    requires i <= k <= |s| && AllWord(s[i..k]) && (k < |s| ==> !IsWordChar(s[k]))
    ensures SkipWord(s, i) == k
    decreases k - i
  {
    if i < k {
      assert s[i..k][0] == s[i];
      assert s[i + 1..k] == s[i..k][1..];
      SkipWordUnique(s, i + 1, k);
    }
  }


  lemma {:induction false} SkipNonSpaceUnique(s: string, i: nat, k: nat)
    requires i <= k <= |s| && NoSpace(s[i..k]) && (k < |s| ==> IsSpace(s[k]))
    ensures SkipNonSpace(s, i) == k
    decreases k - i
  {
    if i < k {
      assert s[i..k][0] == s[i];
      assert s[i + 1..k] == s[i..k][1..];
      SkipNonSpaceUnique(s, i + 1, k);
    }
  }


  /** A whitespace run cannot run past a final non-whitespace character. */
  lemma {:induction false} SkipSpacesStopsBeforeWord(s: string, i: nat)
    requires i < |s| && !IsSpace(s[|s| - 1])
    ensures SkipSpaces(s, i) < |s|
    decreases |s| - i
  {
    if IsSpace(s[i]) {
      SkipSpacesStopsBeforeWord(s, i + 1);
    }
  }

  // ---------------------------------------------------------------------
  // The bracket token `\[\s*%\(\w+\)s\s*\]`
  // ---------------------------------------------------------------------

  /** The three variable parts of a bracket token such as `[ %(levelname)s ]`:
    * the whitespace after `[`, the field name and the whitespace before `]`. */
  datatype TokenParts = TokenParts(lead: string, field: string, trail: string) {

    predicate WellFormed() {
      AllSpace(lead) && field != [] && AllWord(field) && AllSpace(trail)
    }

    function Spelling(): string {
      "[" + lead + "%(" + field + ")s" + trail + "]"
    }
  }

  /** The slices of a matched token spell it back. */
  lemma SpellingOfSlices(s: string, a: nat, b: nat, c: nat)
    requires 1 <= a && a + 2 <= b && b + 2 <= c < |s|
    requires s[0] == '[' && s[a] == '%' && s[a + 1] == '(' && s[b] == ')' && s[b + 1] == 's' && s[c] == ']'
    ensures TokenParts(s[1..a], s[a + 2..b], s[b + 2..c]).Spelling() == s[..c + 1]
  {
    assert s[..1] == "[";
    assert s[..a] == s[..1] + s[1..a];
    assert s[a..a + 2] == "%(";
    assert s[..a + 2] == s[..a] + s[a..a + 2];
    assert s[..b] == s[..a + 2] + s[a + 2..b];
    assert s[b..b + 2] == ")s";
    assert s[..b + 2] == s[..b] + s[b..b + 2];
    assert s[..c] == s[..b + 2] + s[b + 2..c];
    assert s[c..c + 1] == "]";
    assert s[..c + 1] == s[..c] + s[c..c + 1];
  }

  /** The match of the token pattern at the start of `s`, if there is one.
    * Every quantifier of the pattern is followed by a character its class
    * excludes, so greedy matching never backtracks and the match is unique. */
  function MatchToken(s: string): Option<TokenParts> {
    if |s| == 0 || s[0] != '[' then None
    else
      var a := SkipSpaces(s, 1);
      if a + 2 <= |s| && s[a] == '%' && s[a + 1] == '(' then
        var b := SkipWord(s, a + 2);
        if a + 2 < b && b + 2 <= |s| && s[b] == ')' && s[b + 1] == 's' then
          var c := SkipSpaces(s, b + 2);
          if c < |s| && s[c] == ']' then
            Some(TokenParts(s[1..a], s[a + 2..b], s[b + 2..c]))
          else None
        else None
      else None
  }

  /** What MatchToken finds is a well-formed token at the start of `s`. */
  lemma MatchTokenSound(s: string)
    ensures MatchToken(s).Some? ==>
              MatchToken(s).value.WellFormed() && MatchToken(s).value.Spelling() <= s
  {
    if MatchToken(s).Some? {
      var a := SkipSpaces(s, 1);
      var b := SkipWord(s, a + 2);
      var c := SkipSpaces(s, b + 2);
      SkipSpacesRun(s, 1);
      SkipWordRun(s, a + 2);
      SkipSpacesRun(s, b + 2);
      SpellingOfSlices(s, a, b, c);
    }
  }

  /** The layout of a token's spelling, index by index. */
  lemma SpellingLayout(p: TokenParts)
    ensures var t, a, b := p.Spelling(), 1 + |p.lead|, 3 + |p.lead| + |p.field|;
      |t| == b + 3 + |p.trail| && t[0] == '[' && t[1..a] == p.lead
      && t[a] == '%' && t[a + 1] == '(' && t[a + 2..b] == p.field
      && t[b] == ')' && t[b + 1] == 's' && t[b + 2..b + 2 + |p.trail|] == p.trail
      && t[b + 2 + |p.trail|] == ']'
  {
    var t1 := "[" + p.lead;
    var t2 := t1 + "%(";
    var t3 := t2 + p.field;
    var t4 := t3 + ")s";
    var t5 := t4 + p.trail;
    var t := t5 + "]";
    assert t == p.Spelling();
    assert t1[1..] == p.lead;
    assert t[..|t1|] == t1 && t[..|t2|] == t2 && t[..|t3|] == t3 && t[..|t4|] == t4 && t[..|t5|] == t5;
    assert t3[|t2|..] == p.field;
    assert t5[|t4|..] == p.trail;
  }

  /** A string that starts with a token holds its parts at the token's offsets. */
  lemma SpellingPrefix(s: string, p: TokenParts, a: nat, b: nat, c: nat)
    requires p.Spelling() <= s
    requires a == 1 + |p.lead| && b == a + 2 + |p.field| && c == b + 2 + |p.trail|
    ensures c < |s| && s[0] == '[' && s[1..a] == p.lead
    ensures s[a] == '%' && s[a + 1] == '(' && s[a + 2..b] == p.field
    ensures s[b] == ')' && s[b + 1] == 's' && s[b + 2..c] == p.trail && s[c] == ']'
  {
    var t := p.Spelling();
    SpellingLayout(p);
    assert s[..|t|] == t;
    assert s[1..a] == t[1..a];
    assert s[a + 2..b] == t[a + 2..b];
    assert s[b + 2..c] == t[b + 2..c];
  }

  /** Where the three greedy runs end decides the match. */
  lemma MatchTokenAt(s: string, a: nat, b: nat, c: nat, p: TokenParts)
    requires 1 <= |s| && s[0] == '['
    requires SkipSpaces(s, 1) == a && a + 2 <= |s| && s[a] == '%' && s[a + 1] == '('
    requires SkipWord(s, a + 2) == b && a + 2 < b && b + 2 <= |s| && s[b] == ')' && s[b + 1] == 's'
    requires SkipSpaces(s, b + 2) == c && c < |s| && s[c] == ']'
    requires p == TokenParts(s[1..a], s[a + 2..b], s[b + 2..c])
    ensures MatchToken(s) == Some(p)
  {
  }

  /** A well-formed token laid out in `s` at the offsets `a`, `b` and `c` is matched. */
  lemma MatchTokenOfLayout(s: string, p: TokenParts, a: nat, b: nat, c: nat)
    requires p.WellFormed()
    requires a == 1 + |p.lead| && b == a + 2 + |p.field| && c == b + 2 + |p.trail|
    requires c < |s| && s[0] == '[' && s[1..a] == p.lead
    requires s[a] == '%' && s[a + 1] == '(' && s[a + 2..b] == p.field
    requires s[b] == ')' && s[b + 1] == 's' && s[b + 2..c] == p.trail && s[c] == ']'
    ensures MatchToken(s) == Some(p)
  {
    SkipSpacesUnique(s, 1, a);
    SkipWordUnique(s, a + 2, b);
    SkipSpacesUnique(s, b + 2, c);
    MatchTokenAt(s, a, b, c, p);
  }

  /** Whenever `s` starts with a well-formed token, MatchToken finds exactly
    * that token: the matcher misses no token and reads no other one. */
  lemma MatchTokenComplete(s: string, p: TokenParts)
    requires p.WellFormed() && p.Spelling() <= s
    ensures MatchToken(s) == Some(p)
  {
    var a := 1 + |p.lead|;
    var b := a + 2 + |p.field|;
    var c := b + 2 + |p.trail|;
    SpellingPrefix(s, p, a, b, c);
    MatchTokenOfLayout(s, p, a, b, c);
  }

  /** No token starts at any position of `s`. */
  ghost predicate NoTokens(s: string) {
    forall i, p: TokenParts :: 0 <= i <= |s| && p.WellFormed() ==> !(p.Spelling() <= s[i..])
  }

  // ---------------------------------------------------------------------
  // re.sub: rewrite every token, left to right, without overlap
  // ---------------------------------------------------------------------

  /** `re.sub(r"\[\s*%\(\w+\)s\s*\]", rep, s)`: the scan tries a match at
    * each position; a match is replaced by `rep` and the scan resumes after
    * it, any other character is copied. */
  function Sub(s: string, rep: string): string
    decreases |s|
  {
    if s == [] then []
    else if s[0] != '[' then [s[0]] + Sub(s[1..], rep)
    else match MatchToken(s)
      case Some(p) =>
        MatchTokenSound(s);
        rep + Sub(s[|p.Spelling()|..], rep)
      case None => [s[0]] + Sub(s[1..], rep)
  }

  /** A token at the start is replaced by `rep` and the scan resumes after it. */
  lemma SubAtToken(s: string, p: TokenParts, rep: string)
    requires p.WellFormed() && p.Spelling() <= s
    ensures Sub(s, rep) == rep + Sub(s[|p.Spelling()|..], rep)
  {
    MatchTokenComplete(s, p);
  }

  /** A character that does not start a token is copied unchanged. */
  lemma SubAtLiteral(s: string, rep: string)
    requires s != []
    requires forall p: TokenParts :: p.WellFormed() ==> !(p.Spelling() <= s)
    ensures Sub(s, rep) == [s[0]] + Sub(s[1..], rep)
  {
    MatchTokenSound(s);
    if MatchToken(s).Some? {
      assert false;
    }
  }

  /** A string in which no token starts comes out of the scan unchanged. */
  lemma {:induction false} SubWithoutTokens(s: string, rep: string)
    requires NoTokens(s)
    ensures Sub(s, rep) == s
    decreases |s|
  {
    if s != [] {
      forall p: TokenParts | p.WellFormed() ensures !(p.Spelling() <= s) {
        assert s[0..] == s;
      }
      SubAtLiteral(s, rep);
      forall i, p: TokenParts | 0 <= i <= |s[1..]| && p.WellFormed()
        ensures !(p.Spelling() <= s[1..][i..])
      {
        assert s[1..][i..] == s[i + 1..];
      }
      SubWithoutTokens(s[1..], rep);
    }
  }

  /** Characters before the first `[` are copied unchanged: no token can
    * start among them. */
  lemma {:induction false} SubKeepsBracketFreePrefix(s: string, k: nat, rep: string)
    requires k <= |s|
    requires forall i :: 0 <= i < k ==> s[i] != '['
    ensures Sub(s, rep) == s[..k] + Sub(s[k..], rep)
    decreases k
  {
    if k > 0 {
      var tail := s[1..];
      SubAtNonBracket(s, rep);
      assert forall i :: 0 <= i < k - 1 ==> tail[i] != '[' by {
        forall i | 0 <= i < k - 1 ensures tail[i] != '[' { assert tail[i] == s[i + 1]; }
      }
      SubKeepsBracketFreePrefix(tail, k - 1, rep);
      assert tail[..k - 1] == s[1..k] && tail[k - 1..] == s[k..];
      ConsSlice(s, k, Sub(s[k..], rep));
    } else {
      assert s[..0] == [] && s[0..] == s;
    }
  }

  /** A character other than `[` is copied. */
  lemma SubAtNonBracket(s: string, rep: string)
    requires s != [] && s[0] != '['
    ensures Sub(s, rep) == [s[0]] + Sub(s[1..], rep)
  {
  }

  /** Putting the head back in front of the rest of a prefix. */
  lemma ConsSlice(s: string, k: nat, v: string)
    requires 0 < k <= |s|
    ensures [s[0]] + (s[1..k] + v) == s[..k] + v
  {
    assert s[..k] == [s[0]] + s[1..k];
  }

  // ---------------------------------------------------------------------
  // Python's `t in s` on strings
  // ---------------------------------------------------------------------

  /** `t in s`: `t` occurs in `s` as a contiguous substring. */
  predicate HasSubstring(s: string, t: string)
    decreases |s|
  {
    |t| <= |s| && (s[..|t|] == t || (|s| > 0 && HasSubstring(s[1..], t)))
  }

  /** `t` occurs in `s` at index `i`. */
  predicate OccursAt(s: string, t: string, i: int) {
    0 <= i <= |s| - |t| && s[i..i + |t|] == t
  }

  /** An occurrence at any index is found by the scan. */
  lemma {:induction false} HasSubstringAt(s: string, t: string, i: int)
    requires OccursAt(s, t, i)
    ensures HasSubstring(s, t)
    decreases i
  {
    if i > 0 {
      assert s[1..][i - 1..i - 1 + |t|] == s[i..i + |t|];
      HasSubstringAt(s[1..], t, i - 1);
    }
  }

  /** The scan only reports an actual occurrence. */
  lemma {:induction false} HasSubstringWitness(s: string, t: string) returns (i: int)
    requires HasSubstring(s, t)
    ensures OccursAt(s, t, i)
    decreases |s|
  {
    if s[..|t|] == t {
      i := 0;
    } else {
      var j := HasSubstringWitness(s[1..], t);
      assert s[1..][j..j + |t|] == s[j + 1..j + 1 + |t|];
      i := j + 1;
    }
  }

  /** HasSubstring agrees with the positional definition, in both directions. */
  lemma HasSubstringIff(s: string, t: string)
    ensures HasSubstring(s, t) <==> exists i :: OccursAt(s, t, i)
  {
    if HasSubstring(s, t) {
      var i := HasSubstringWitness(s, t);
    }
    if exists i :: OccursAt(s, t, i) {
      var i :| OccursAt(s, t, i);
      HasSubstringAt(s, t, i);
    }
  }

  /** An occurrence in `b` is still an occurrence in `a + b`. */
  lemma {:induction false} HasSubstringInSuffix(a: string, b: string, t: string)
    requires HasSubstring(b, t)
    ensures HasSubstring(a + b, t)
    decreases |a|
  {
    if a != [] {
      HasSubstringInSuffix(a[1..], b, t);
      assert (a + b)[1..] == a[1..] + b;
    } else {
      assert a + b == b;
    }
  }

  /** An occurrence in `a` is still an occurrence in `a + b`. */
  lemma {:induction false} HasSubstringInPrefix(a: string, b: string, t: string)
    requires HasSubstring(a, t)
    ensures HasSubstring(a + b, t)
    decreases |a|
  {
    if a[..|t|] == t {
      assert (a + b)[..|t|] == t;
    } else {
      HasSubstringInPrefix(a[1..], b, t);
      assert (a + b)[1..] == a[1..] + b;
    }
  }

  /** Rewriting tokens keeps an occurrence of a bracket-free `t` as long as
    * the replacement itself contains `t`: an occurrence that the scan copies
    * survives, and one that overlaps a token is replaced by `rep`, which
    * holds `t`. */
  lemma {:induction false} SubKeepsSubstring(s: string, rep: string, t: string)
    requires HasSubstring(s, t) && HasSubstring(rep, t)
    requires forall i :: 0 <= i < |t| ==> t[i] != '['
    ensures HasSubstring(Sub(s, rep), t)
    decreases |s|
  {
    if s[..|t|] == t {
      SubKeepsBracketFreePrefix(s, |t|, rep);
      assert HasSubstring(t, t) by { assert t[..|t|] == t; }
      HasSubstringInPrefix(t, Sub(s[|t|..], rep), t);
    } else {
      match MatchToken(s)
      case Some(p) =>
        HasSubstringInPrefix(rep, Sub(s[|p.Spelling()|..], rep), t);
      case None =>
        SubKeepsSubstring(s[1..], rep, t);
        HasSubstringInSuffix([s[0]], Sub(s[1..], rep), t);
    }
  }

  // ---------------------------------------------------------------------
  // str.strip(), re.sub(r"\s+", " ", ...) and the words of a string
  // ---------------------------------------------------------------------

  /** Neither the first nor the last character is whitespace. */
  predicate NoEdgeSpace(s: string) {
    s == [] || (!IsSpace(s[0]) && !IsSpace(s[|s| - 1]))
  }

  /** The length of `s` once its trailing whitespace is removed. */
  function TrailingStart(s: string): (k: nat)
    ensures k <= |s| && AllSpace(s[k..])
    ensures k > 0 ==> !IsSpace(s[k - 1])
    decreases |s|
  {
    if |s| > 0 && IsSpace(s[|s| - 1]) then
      var k := TrailingStart(s[..|s| - 1]);
      assert s[k..] == s[..|s| - 1][k..] + [s[|s| - 1]];
      k
    else |s|
  }

  /** `s.strip()`: removes leading and trailing whitespace. */
  function Strip(s: string): string {
    var t := s[SkipSpaces(s, 0)..];
    t[..TrailingStart(t)]
  }

  /** What strip keeps is the middle of `s`, with only whitespace cut on
    * either side, and it neither starts nor ends with whitespace. */
  lemma StripShape(s: string)
    ensures var lo, r := SkipSpaces(s, 0), Strip(s);
      lo + |r| <= |s| && s[lo..lo + |r|] == r
      && AllSpace(s[..lo]) && AllSpace(s[lo + |r|..]) && NoEdgeSpace(r)
  {
    var lo := SkipSpaces(s, 0);
    SkipSpacesRun(s, 0);
    var t := s[lo..];
    var k := TrailingStart(t);
    var r := t[..k];
    assert r != [] ==> !IsSpace(r[0]) by {
      if r != [] { assert r[0] == s[lo]; }
    }
    assert s[lo..lo + |r|] == r;
    assert s[lo + |r|..] == t[k..];
  }

  /** The non-whitespace characters of `s`, in order. */
  function NonSpace(s: string): string
    decreases |s|
  {
    if s == [] then [] else (if IsSpace(s[0]) then [] else [s[0]]) + NonSpace(s[1..])
  }

  lemma {:induction false} NonSpaceSkipsSpaces(s: string, j: nat)
    requires j <= |s| && AllSpace(s[..j])
    ensures NonSpace(s) == NonSpace(s[j..])
    decreases j
  {
    if j > 0 {
      assert IsSpace(s[..j][0]);
      assert s[1..][..j - 1] == s[1..j];
      NonSpaceSkipsSpaces(s[1..], j - 1);
      assert s[1..][j - 1..] == s[j..];
    }
  }

  /** `re.sub(r"\s+", " ", s)`: every maximal whitespace run becomes one
    * space; every other character is copied. */
  function Collapse(s: string): string
    decreases |s|
  {
    if s == [] then []
    else if IsSpace(s[0]) then [' '] + Collapse(s[SkipSpaces(s, 0)..])
    else [s[0]] + Collapse(s[1..])
  }

  /** The result of Collapse has no whitespace other than `' '`, no two
    * adjacent whitespace characters, and starts (ends) with whitespace
    * exactly when its argument does. */
  lemma {:induction false} CollapseShape(s: string)
    ensures var r := Collapse(s);
      && (forall i :: 0 <= i < |r| && IsSpace(r[i]) ==> r[i] == ' ')
      && (forall i :: 0 <= i < |r| - 1 ==> !(IsSpace(r[i]) && IsSpace(r[i + 1])))
      && (r == [] <==> s == [])
      && (s != [] ==> (IsSpace(r[0]) <==> IsSpace(s[0])))
      && (s != [] ==> (IsSpace(r[|r| - 1]) <==> IsSpace(s[|s| - 1])))
    decreases |s|
  {
    if s != [] {
      var r := Collapse(s);
      if IsSpace(s[0]) {
        var j := SkipSpaces(s, 0);
        SkipSpacesRun(s, 0);
        var t := s[j..];
        CollapseShape(t);
        assert t == [] ==> IsSpace(s[|s| - 1]) by {
          if t == [] { assert s[..j][|s| - 1] == s[|s| - 1]; }
        }
        assert t != [] ==> t[|t| - 1] == s[|s| - 1];
        assert forall i :: 1 <= i < |r| ==> r[i] == Collapse(t)[i - 1];
      } else {
        CollapseShape(s[1..]);
        assert forall i :: 1 <= i < |r| ==> r[i] == Collapse(s[1..])[i - 1];
      }
    }
  }

  /** Collapse changes whitespace only: the other characters and their order
    * are kept. */
  lemma {:induction false} CollapseKeepsNonSpace(s: string)
    ensures NonSpace(Collapse(s)) == NonSpace(s)
    decreases |s|
  {
    if s != [] {
      var r := Collapse(s);
      if IsSpace(s[0]) {
        var j := SkipSpaces(s, 0);
        SkipSpacesRun(s, 0);
        CollapseKeepsNonSpace(s[j..]);
        NonSpaceSkipsSpaces(s, j);
        assert r[1..] == Collapse(s[j..]);
      } else {
        CollapseKeepsNonSpace(s[1..]);
        assert r[1..] == Collapse(s[1..]);
      }
    }
  }

  /** `s.split()`: the maximal runs of non-whitespace characters. */
  function Split(s: string): seq<string>
    decreases |s|
  {
    var a := SkipSpaces(s, 0);
    if a == |s| then []
    else
      var b := SkipNonSpace(s, a);
      [s[a..b]] + Split(s[b..])
  }

  /** The words are non-empty and hold no whitespace. */
  lemma {:induction false} SplitWords(s: string)
    ensures forall k :: 0 <= k < |Split(s)| ==> Split(s)[k] != [] && NoSpace(Split(s)[k])
    decreases |s|
  {
    var a := SkipSpaces(s, 0);
    if a < |s| {
      var b := SkipNonSpace(s, a);
      SkipNonSpaceRun(s, a);
      SplitWords(s[b..]);
    }
  }

  /** `" ".join(ws)`. */
  function JoinWords(ws: seq<string>): string
    decreases |ws|
  {
    if ws == [] then [] else if |ws| == 1 then ws[0] else ws[0] + " " + JoinWords(ws[1..])
  }

  /** Leading whitespace does not change the words. */
  lemma SplitSkipsSpaces(s: string)
    ensures Split(s) == Split(s[SkipSpaces(s, 0)..])
  {
    var a := SkipSpaces(s, 0);
    var y := s[a..];
    if a < |s| {
      SkipSpacesUnique(y, 0, 0);
      var b := SkipNonSpace(s, a);
      SkipNonSpaceRun(s, a);
      assert y[0..b - a] == s[a..b];
      SkipNonSpaceUnique(y, 0, b - a);
      assert y[b - a..] == s[b..];
    }
  }

  /** Trailing whitespace does not change the words. */
  lemma {:induction false} SplitIgnoresTrailingSpaces(u: string, sp: string)
    requires AllSpace(sp)
    ensures Split(u + sp) == Split(u)
    decreases |u|
  {
    var s := u + sp;
    var a := SkipSpaces(u, 0);
    SkipSpacesRun(u, 0);
    if a == |u| {
      assert AllSpace(s[0..|s|]) by {
        assert u[0..|u|] == u;
        assert s[0..|s|] == u + sp;
      }
      SkipSpacesUnique(s, 0, |s|);
    } else {
      SkipSpacesUnique(s, 0, a);
      var b := SkipNonSpace(u, a);
      SkipNonSpaceRun(u, a);
      assert s[a..b] == u[a..b];
      assert b == |u| && b < |s| ==> s[b] == sp[0];
      SkipNonSpaceUnique(s, a, b);
      assert s[b..] == u[b..] + sp;
      SplitIgnoresTrailingSpaces(u[b..], sp);
    }
  }

  /** Putting the head back in front of the tail. */
  lemma ConsTail(w: string, v: string)
    requires w != []
    ensures [w[0]] + (w[1..] + v) == w + v
  {
    assert w == [w[0]] + w[1..];
  }

  /** A run of non-whitespace at the front is copied by Collapse. */
  lemma {:induction false} CollapseKeepsWord(w: string, y: string)
    requires NoSpace(w)
    ensures Collapse(w + y) == w + Collapse(y)
    decreases |w|
  {
    if w != [] {
      var s := w + y;
      assert s[0] == w[0] && !IsSpace(s[0]);
      assert s[1..] == w[1..] + y;
      assert Collapse(s) == [w[0]] + Collapse(w[1..] + y);
      CollapseKeepsWord(w[1..], y);
      ConsTail(w, Collapse(y));
    } else {
      assert w + y == y;
    }
  }

  /** A string that starts with a word splits into that word and the words
    * of the rest. */
  lemma SplitAtWord(x: string)
    requires x != [] && !IsSpace(x[0])
    ensures Split(x) == [x[..SkipNonSpace(x, 0)]] + Split(x[SkipNonSpace(x, 0)..])
  {
    SkipSpacesUnique(x, 0, 0);
  }

  /** A leading whitespace run becomes one space. */
  lemma CollapseAtSpace(s: string)
    requires s != [] && IsSpace(s[0])
    ensures Collapse(s) == " " + Collapse(s[SkipSpaces(s, 0)..])
  {
  }

  /** Joining a word in front of at least one more word. */
  lemma JoinWordsCons(w: string, ws: seq<string>)
    requires ws != []
    ensures JoinWords([w] + ws) == w + (" " + JoinWords(ws))
  {
    assert ([w] + ws)[1..] == ws;
  }

  /** On a string without leading or trailing whitespace, collapsing the
    * whitespace runs is joining the words with single spaces. */
  lemma {:induction false} CollapseIsJoinSplit(x: string)
    requires NoEdgeSpace(x)
    ensures Collapse(x) == JoinWords(Split(x))
    decreases |x|
  {
    if x != [] {
      var b := SkipNonSpace(x, 0);
      SkipNonSpaceRun(x, 0);
      var w := x[..b];
      var rest := x[b..];
      SplitAtWord(x);
      assert x == w + rest;
      CollapseKeepsWord(w, rest);
      if rest != [] {
        var c := SkipSpaces(rest, 0);
        assert rest[|rest| - 1] == x[|x| - 1];
        SkipSpacesStopsBeforeWord(rest, 0);
        var y := rest[c..];
        assert y[|y| - 1] == rest[|rest| - 1];
        CollapseAtSpace(rest);
        SplitSkipsSpaces(rest);
        CollapseIsJoinSplit(y);
        SkipSpacesUnique(y, 0, 0);
        JoinWordsCons(w, Split(y));
      }
    }
  }

  /** Stripping does not change the words. */
  lemma SplitOfStrip(s: string)
    ensures Split(Strip(s)) == Split(s)
  {
    var lo := SkipSpaces(s, 0);
    var t := s[lo..];
    var k := TrailingStart(t);
    SplitSkipsSpaces(s);
    assert t == t[..k] + t[k..];
    SplitIgnoresTrailingSpaces(t[..k], t[k..]);
  }

  /** `re.sub(r"\s+", " ", s.strip())` is `" ".join(s.split())`. */
  lemma NormalizeIsJoinSplit(s: string)
    ensures Collapse(Strip(s)) == JoinWords(Split(s))
  {
    StripShape(s);
    CollapseIsJoinSplit(Strip(s));
    SplitOfStrip(s);
  }

  // ---------------------------------------------------------------------
  // The two templates
  // ---------------------------------------------------------------------

  /** The placeholder the with-request-id template carries. */
  const RequestIdSlot: string := "[%(request_id)s]"

  const DefaultWithRequestId: string :=
    "%(asctime)s %(levelname)s %(name)s - %(message)s [%(request_id)s]"

  const DefaultWithoutRequestId: string :=
    "%(asctime)s %(levelname)s %(name)s - %(message)s"

  /** The slot names the `request_id` field. */
  lemma SlotNamesRequestId()
    ensures HasSubstring(RequestIdSlot, "request_id")
  {
    assert RequestIdSlot[3..][..10] == "request_id";
    assert RequestIdSlot[1..][1..] == RequestIdSlot[2..];
    assert RequestIdSlot[2..][1..] == RequestIdSlot[3..];
  }

  /** Python truthiness of `fmt: str | None`: neither None nor empty. */
  predicate Given(fmt: Option<string>) {
    fmt.Some? && fmt.value != ""
  }

  /** `_fmt_with_request_id`: a template that carries the request id. */
  function WithRequestId(fmt: Option<string>): (r: string)
    ensures !Given(fmt) ==> r == DefaultWithRequestId
    ensures Given(fmt) && !HasSubstring(fmt.value, "request_id") ==>
              r == fmt.value + " " + RequestIdSlot && fmt.value < r
    ensures Given(fmt) && HasSubstring(fmt.value, "request_id") ==>
              r == Sub(fmt.value, RequestIdSlot)
    ensures HasSubstring(r, "request_id")
  {
    if Given(fmt) then
      if HasSubstring(fmt.value, "request_id") then
        SlotNamesRequestId();
        SubKeepsSubstring(fmt.value, RequestIdSlot, "request_id");
        Sub(fmt.value, RequestIdSlot)
      else
        SlotNamesRequestId();
        HasSubstringInSuffix(fmt.value + " ", RequestIdSlot, "request_id");
        fmt.value + " " + RequestIdSlot
    else
      assert DefaultWithRequestId == DefaultWithoutRequestId + " " + RequestIdSlot;
      SlotNamesRequestId();
      HasSubstringInSuffix(DefaultWithoutRequestId + " ", RequestIdSlot, "request_id");
      DefaultWithRequestId
  }

  /** `_fmt_without_request_id`: every token removed, then the ends stripped
    * and the whitespace runs collapsed. */
  function WithoutRequestId(fmt: Option<string>): (r: string)
    ensures !Given(fmt) ==> r == DefaultWithoutRequestId
    ensures Given(fmt) ==> NoEdgeSpace(r)
    ensures Given(fmt) ==> forall i :: 0 <= i < |r| && IsSpace(r[i]) ==> r[i] == ' '
    ensures Given(fmt) ==> forall i :: 0 <= i < |r| - 1 ==> !(IsSpace(r[i]) && IsSpace(r[i + 1]))
  {
    if Given(fmt) then
      var stripped := Strip(Sub(fmt.value, ""));
      StripShape(Sub(fmt.value, ""));
      CollapseShape(stripped);
      Collapse(stripped)
    else
      DefaultWithoutRequestId
  }

  /** A `fmt` that names `request_id` but holds no bracket token is used as it is. */
  lemma WithRequestIdKeepsTokenFree(fmt: Option<string>)
    requires Given(fmt) && HasSubstring(fmt.value, "request_id") && NoTokens(fmt.value)
    ensures WithRequestId(fmt) == fmt.value
  {
    SubWithoutTokens(fmt.value, RequestIdSlot);
  }

  /** The without-id template is the words left once every token is removed,
    * joined by single spaces. */
  lemma WithoutRequestIdIsJoinSplit(fmt: Option<string>)
    requires Given(fmt)
    ensures WithoutRequestId(fmt) == JoinWords(Split(Sub(fmt.value, "")))
  {
    NormalizeIsJoinSplit(Sub(fmt.value, ""));
  }

  /** Without tokens, the without-id template only normalises whitespace. */
  lemma WithoutRequestIdOfTokenFree(fmt: Option<string>)
    requires Given(fmt) && NoTokens(fmt.value)
    ensures WithoutRequestId(fmt) == JoinWords(Split(fmt.value))
  {
    SubWithoutTokens(fmt.value, "");
    NormalizeIsJoinSplit(fmt.value);
  }

  /** With no format string, the with-id default is the without-id default
    * followed by the request-id slot. */
  lemma DefaultsDifferBySlot(fmt: Option<string>)
    requires !Given(fmt)
    ensures WithRequestId(fmt) == WithoutRequestId(fmt) + " " + RequestIdSlot
  {
    assert DefaultWithRequestId == DefaultWithoutRequestId + " " + RequestIdSlot;
  }

  /** A token followed by any text: the token is replaced, the text scanned. */
  lemma SubOfTokenThen(p: TokenParts, t: string, rep: string)
    requires p.WellFormed()
    ensures Sub(p.Spelling() + t, rep) == rep + Sub(t, rep)
  {
    var s := p.Spelling() + t;
    SubAtToken(s, p, rep);
    assert s[|p.Spelling()|..] == t;
  }

  /** Every token is rewritten, not only the first: two tokens separated by a
    * space both become the replacement. */
  lemma SubRewritesEveryToken(p: TokenParts, q: TokenParts, rep: string)
    requires p.WellFormed() && q.WellFormed()
    ensures Sub(p.Spelling() + " " + q.Spelling(), rep) == rep + " " + rep
  {
    var t := " " + q.Spelling();
    assert p.Spelling() + " " + q.Spelling() == p.Spelling() + t;
    SubOfTokenThen(p, t, rep);
    SubKeepsBracketFreePrefix(t, 1, rep);
    assert t[..1] == " " && t[1..] == q.Spelling() + [];
    SubOfTokenThen(q, [], rep);
  }
}
