/** The one regular expression of the patcher,
      /add_filter[^;]+wp_maybe_grant_site_health_caps[^;]+;/i
    written out as a search without a regex engine, together with a declarative
    reading of the expression that the search is proved to agree with. */
module SiteHealthPattern {
  import opened Wrappers
  import opened TextSearch

  const Prefix := "add_filter"
  const Capability := "wp_maybe_grant_site_health_caps"

  /** Case folding of the `i` flag. Both literals of the expression are ASCII, and a
      non-Unicode JavaScript regex never folds a non-ASCII character onto an ASCII one,
      so folding the 26 ASCII letters is exact here. */
  function FoldCase(c: char): (f: char)
    ensures f == ';' <==> c == ';'
    ensures 'a' <= f <= 'z' <==> ('a' <= c <= 'z' || 'A' <= c <= 'Z')
  {
    if 'A' <= c <= 'Z' then (c as int + 32) as char else c
  }

  predicate IsAsciiLetter(c: char) {
    'A' <= c <= 'Z' || 'a' <= c <= 'z'
  }

  /** The characters the `i` flag treats as equal for this expression: a character is
      equal only to itself and, for an ASCII letter, to the same letter in the other case. */
  lemma FoldCaseEquality(c: char, d: char)
    ensures FoldCase(c) == FoldCase(d) <==>
      c == d ||
      (IsAsciiLetter(c) && IsAsciiLetter(d) &&
       (c as int - d as int == 32 || d as int - c as int == 32))
  {
  }

  /** `pat` matches `s` at index `k`, ignoring ASCII case. */
  predicate MatchesIgnoreCaseAt(s: string, pat: string, k: int) {
    0 <= k && k + |pat| <= |s| &&
    forall j :: 0 <= j < |pat| ==> FoldCase(s[k + j]) == FoldCase(pat[j])
  }

  predicate NoSemicolonIn(s: string, lo: int, hi: int)
    requires 0 <= lo <= hi <= |s|
  {
    forall j :: lo <= j < hi ==> s[j] != ';'
  }

  /** `span` is, in full, a string the expression matches: `add_filter`, one or more
      non-`;` characters, `wp_maybe_grant_site_health_caps` (starting at `k`), one or
      more non-`;` characters, and `;`. */
  ghost predicate IsMatchSplitAt(span: string, k: int) {
    && |Prefix| + 1 <= k
    && k + |Capability| + 1 <= |span| - 1
    && MatchesIgnoreCaseAt(span, Prefix, 0)
    && NoSemicolonIn(span, |Prefix|, k)
    && MatchesIgnoreCaseAt(span, Capability, k)
    && NoSemicolonIn(span, k + |Capability|, |span| - 1)
    && span[|span| - 1] == ';'
  }

  ghost predicate IsPatternMatch(span: string) {
    exists k :: IsMatchSplitAt(span, k)
  }

  /** `s[i..e]` is the match `replace` removes: a match, and no match starts further left. */
  ghost predicate IsLeftmostMatch(s: string, i: int, e: int) {
    && 0 <= i <= e <= |s|
    && IsPatternMatch(s[i..e])
    && forall i', e' :: 0 <= i' < i && i' <= e' <= |s| ==> !IsPatternMatch(s[i'..e'])
  }

  /** The capability name sits inside `seg` with at least one character on each side. */
  predicate HasInnerCapability(seg: string) {
    exists k :: 1 <= k < |seg| - |Capability| && MatchesIgnoreCaseAt(seg, Capability, k)
  }

  /** The end (exclusive) of the match starting at `i`, if one starts there. Every
      character the two `[^;]+` runs cover is not `;`, so such a match can only end
      just after the first `;` that follows `add_filter`. */
  function MatchAt(s: string, i: nat): Option<nat> {
    if !MatchesIgnoreCaseAt(s, Prefix, i) then None
    else match IndexOf(s, ";", i + |Prefix|)
      case None => None
      case Some(j) => if HasInnerCapability(s[i + |Prefix|..j]) then Some(j + 1) else None
  }

  /** The leftmost match starting at or after `from`, as (start, end). */
  function FindMatch(s: string, from: nat): (r: Option<(nat, nat)>)
    ensures r.Some? ==> from <= r.value.0 && MatchAt(s, r.value.0) == Some(r.value.1)
    ensures forall i :: from <= i && (r.None? || i < r.value.0) ==> MatchAt(s, i).None?
    decreases |s| - from
  {
    if from + |Prefix| > |s| then None
    else if MatchAt(s, from).Some? then Some((from, MatchAt(s, from).value))
    else FindMatch(s, from + 1)
  }

  /** The site-health callback: `contents.replace(/…/i, '')`. */
  function RemoveSiteHealthFilter(contents: string): string {
    match FindMatch(contents, 0)
    case None => contents
    case Some((i, e)) => contents[..i] + contents[e..]
  }

  lemma SemicolonOccursAt(s: string, j: int)
    requires 0 <= j < |s|
    ensures OccursAt(s, ";", j) <==> s[j] == ';'
  {
    assert s[j..j + 1] == [s[j]];
  }

  /** A case-insensitive match of a literal without `;` covers no `;`. */
  lemma FoldMatchHasNoSemicolon(s: string, pat: string, k: int)
    requires MatchesIgnoreCaseAt(s, pat, k)
    requires forall j :: 0 <= j < |pat| ==> pat[j] != ';'
    ensures NoSemicolonIn(s, k, k + |pat|)
  {
    forall j | k <= j < k + |pat| ensures s[j] != ';' {
      assert FoldCase(s[k + (j - k)]) == FoldCase(pat[j - k]);
    }
  }

  lemma LiteralsHaveNoSemicolon()
    ensures forall j :: 0 <= j < |Prefix| ==> Prefix[j] != ';'
    ensures forall j :: 0 <= j < |Capability| ==> Capability[j] != ';'
  {
  }

  /** Case-insensitive matching only looks at the characters it covers. */
  lemma MatchesIgnoreCaseShift(s: string, pat: string, lo: int, hi: int, k: int)
    requires 0 <= lo <= hi <= |s|
    requires 0 <= k && k + |pat| <= hi - lo
    ensures MatchesIgnoreCaseAt(s[lo..hi], pat, k) <==> MatchesIgnoreCaseAt(s, pat, lo + k)
  {
    if MatchesIgnoreCaseAt(s[lo..hi], pat, k) {
      forall j | 0 <= j < |pat| ensures FoldCase(s[lo + k + j]) == FoldCase(pat[j]) {
        assert s[lo..hi][k + j] == s[lo + k + j];
      }
    }
    if MatchesIgnoreCaseAt(s, pat, lo + k) {
      forall j | 0 <= j < |pat| ensures FoldCase(s[lo..hi][k + j]) == FoldCase(pat[j]) {
        assert s[lo..hi][k + j] == s[lo + k + j];
      }
    }
  }

  /** What `MatchAt` finds is a match of the expression. */
  lemma {:induction false} MatchAtSound(s: string, i: nat)
    requires MatchAt(s, i).Some?
    ensures i < MatchAt(s, i).value <= |s|
    ensures IsPatternMatch(s[i..MatchAt(s, i).value])
  {
    var p := |Prefix|;
    var j := IndexOf(s, ";", i + p).value;
    var e := j + 1;
    var seg := s[i + p..j];
    var m := HasInnerCapabilityWitness(seg);
    var span := s[i..e];
    var k := p + m;
    assert OccursAt(s, ";", j);
    SemicolonOccursAt(s, j);
    MatchesIgnoreCaseShift(s, Prefix, i, e, 0);
    MatchesIgnoreCaseShift(s, Capability, i, e, k);
    MatchesIgnoreCaseShift(s, Capability, i + p, j, m);
    forall t | p <= t < |span| - 1 ensures span[t] != ';' {
      assert span[t] == s[i + t];
      if s[i + t] == ';' {
        SemicolonOccursAt(s, i + t);
      }
    }
    assert IsMatchSplitAt(span, k);
  }

  lemma HasInnerCapabilityWitness(seg: string) returns (m: int)
    requires HasInnerCapability(seg)
    ensures 1 <= m < |seg| - |Capability| && MatchesIgnoreCaseAt(seg, Capability, m)
  {
    m :| 1 <= m < |seg| - |Capability| && MatchesIgnoreCaseAt(seg, Capability, m);
  }

  /** Every match of the expression that starts at `i` is the one `MatchAt` reports. */
  lemma {:induction false} MatchAtComplete(s: string, i: nat, e: nat)
    requires i <= e <= |s|
    requires IsPatternMatch(s[i..e])
    ensures MatchAt(s, i) == Some(e)
  {
    var p := |Prefix|;
    var k :| IsMatchSplitAt(s[i..e], k);
    SplitInContext(s, i, e, k);
    // the first `;` at or after the end of `add_filter` is the last character of the span
    FirstSemicolon(s, i + p, e - 1);
    var seg := s[i + p..e - 1];
    MatchesIgnoreCaseShift(s, Capability, i + p, e - 1, k - p);
    assert 1 <= k - p < |seg| - |Capability| && MatchesIgnoreCaseAt(seg, Capability, k - p);
  }

  /** The facts of a split match of `s[i..e]`, stated on `s` itself. */
  lemma SplitInContext(s: string, i: nat, e: nat, k: int)
    requires i <= e <= |s|
    requires IsMatchSplitAt(s[i..e], k)
    ensures MatchesIgnoreCaseAt(s, Prefix, i)
    ensures MatchesIgnoreCaseAt(s, Capability, i + k)
    ensures s[e - 1] == ';'
    ensures NoSemicolonIn(s, i + |Prefix|, e - 1)
  {
    var span := s[i..e];
    LiteralsHaveNoSemicolon();
    FoldMatchHasNoSemicolon(span, Capability, k);
    MatchesIgnoreCaseShift(s, Prefix, i, e, 0);
    MatchesIgnoreCaseShift(s, Capability, i, e, k);
    assert s[e - 1] == span[|span| - 1];
    forall t | i + |Prefix| <= t < e - 1 ensures s[t] != ';' {
      assert s[t] == span[t - i];
    }
  }

  lemma FirstSemicolon(s: string, from: nat, j: nat)
    requires from <= j < |s|
    requires NoSemicolonIn(s, from, j) && s[j] == ';'
    ensures IndexOf(s, ";", from) == Some(j)
  {
    SemicolonOccursAt(s, j);
    forall t | from <= t < j ensures !OccursAt(s, ";", t) {
      SemicolonOccursAt(s, t);
    }
  }

  /** `FindMatch` reports exactly the leftmost match of the expression. */
  lemma FindMatchIsLeftmost(s: string)
    ensures FindMatch(s, 0).Some? ==>
      IsLeftmostMatch(s, FindMatch(s, 0).value.0, FindMatch(s, 0).value.1)
    ensures FindMatch(s, 0).None? ==>
      forall i, e :: 0 <= i <= e <= |s| ==> !IsPatternMatch(s[i..e])
  {
    var r := FindMatch(s, 0);
    if r.Some? {
      MatchAtSound(s, r.value.0);
    }
    forall i, e | 0 <= i <= e <= |s| && (r.None? || i < r.value.0) ensures !IsPatternMatch(s[i..e]) {
      if IsPatternMatch(s[i..e]) {
        MatchAtComplete(s, i, e);
      }
    }
  }

  /** At most one match starts at any index. */
  lemma MatchEndIsDetermined(s: string, i: nat, e1: nat, e2: nat)
    requires i <= e1 <= |s| && i <= e2 <= |s|
    requires IsPatternMatch(s[i..e1]) && IsPatternMatch(s[i..e2])
    ensures e1 == e2
  {
    MatchAtComplete(s, i, e1);
    MatchAtComplete(s, i, e2);
  }

  /** The site-health patch: without a match the file is unchanged; otherwise exactly the
      leftmost match is cut out, and the text before and after it is kept. */
  lemma RemoveSiteHealthFilterSpec(s: string)
    ensures (forall i, e :: 0 <= i <= e <= |s| ==> !IsPatternMatch(s[i..e])) ==>
      RemoveSiteHealthFilter(s) == s
    ensures forall i, e :: IsLeftmostMatch(s, i, e) ==>
      RemoveSiteHealthFilter(s) == s[..i] + s[e..]
  {
    FindMatchIsLeftmost(s);
    var r := FindMatch(s, 0);
    forall i, e | IsLeftmostMatch(s, i, e) ensures RemoveSiteHealthFilter(s) == s[..i] + s[e..] {
      assert r.Some?;
      var (i0, e0) := r.value;
      assert i0 == i;
      MatchEndIsDetermined(s, i, e, e0);
    }
  }

  /** The deleted span begins with `add_filter` in any case, ends with its only `;`, and
      holds the capability name with at least one character on each side. */
  lemma MatchShape(span: string)
    requires IsPatternMatch(span)
    ensures |span| >= |Prefix| + |Capability| + 3
    ensures MatchesIgnoreCaseAt(span, Prefix, 0)
    ensures span[|span| - 1] == ';'
    ensures NoSemicolonIn(span, 0, |span| - 1)
    ensures exists k ::
      |Prefix| + 1 <= k && k + |Capability| + 1 < |span| && MatchesIgnoreCaseAt(span, Capability, k)
  {
    var k :| IsMatchSplitAt(span, k);
    LiteralsHaveNoSemicolon();
    FoldMatchHasNoSemicolon(span, Prefix, 0);
    FoldMatchHasNoSemicolon(span, Capability, k);
  }

  const SampleBefore := "( 'user_has_cap', '"
  const SampleAfter := "', 1, 4 )"
  /** `add_filter( 'user_has_cap', 'wp_maybe_grant_site_health_caps', 1, 4 );` */
  const SampleStatement := Prefix + SampleBefore + Capability + SampleAfter + ";"

  /** A literal occurrence is also a case-insensitive one. */
  lemma ExactMatch(s: string, pat: string, k: int)
    requires OccursAt(s, pat, k)
    ensures MatchesIgnoreCaseAt(s, pat, k)
  {
    forall j | 0 <= j < |pat| ensures s[k + j] == pat[j] {
      assert s[k..k + |pat|][j] == s[k + j];
    }
  }

  lemma NoSemicolonFromSlice(s: string, lo: int, hi: int)
    requires 0 <= lo <= hi <= |s|
    requires ';' !in s[lo..hi]
    ensures NoSemicolonIn(s, lo, hi)
  {
    forall j | lo <= j < hi ensures s[j] != ';' {
      assert s[j] == s[lo..hi][j - lo];
    }
  }

  lemma SampleStatementSplit()
    ensures IsMatchSplitAt(SampleStatement, 29)
  {
    var s := SampleStatement;
    assert s[0..10] == Prefix;
    ExactMatch(s, Prefix, 0);
    assert s[29..60] == Capability;
    ExactMatch(s, Capability, 29);
    assert s[10..29] == SampleBefore;
    NoSemicolonFromSlice(s, 10, 29);
    assert s[60..|s| - 1] == SampleAfter;
    NoSemicolonFromSlice(s, 60, |s| - 1);
  }

  /** Only the first match is removed: a file holding the registration twice keeps the
      second one, so a match remains after the patch. */
  lemma SecondMatchSurvives()
    ensures IsPatternMatch(SampleStatement)
    ensures RemoveSiteHealthFilter(SampleStatement + SampleStatement) == SampleStatement
  {
    var s := SampleStatement + SampleStatement;
    var n := |SampleStatement|;
    SampleStatementSplit();
    assert s[0..n] == SampleStatement;
    assert IsPatternMatch(s[0..n]);
    MatchAtComplete(s, 0, n);
    assert s[..0] + s[n..] == SampleStatement;
  }
}
