/** Literal substring search and the first-occurrence replacement performed by
    JavaScript's `String.prototype.replace` when its pattern is a plain string. */
module TextSearch {
  import opened Wrappers

  /** `needle` occurs in `s` starting at index `k`. */
  predicate OccursAt(s: string, needle: string, k: int) {
    0 <= k && k + |needle| <= |s| && s[k..k + |needle|] == needle
  }

  /** `k` is the leftmost index at which `needle` occurs in `s`. */
  predicate IsFirstOccurrence(s: string, needle: string, k: int) {
    OccursAt(s, needle, k) && forall j :: 0 <= j < k ==> !OccursAt(s, needle, j)
  }

  /** The leftmost index at or after `from` where `needle` occurs, as `indexOf(needle, from)`
      for a non-empty `needle`. */
  function IndexOf(s: string, needle: string, from: nat): (r: Option<nat>)
    ensures r.Some? ==> from <= r.value && OccursAt(s, needle, r.value)
    ensures forall j :: from <= j && (r.None? || j < r.value) ==> !OccursAt(s, needle, j)
    decreases |s| - from
  {
    if from + |needle| > |s| then None
    else if s[from..from + |needle|] == needle then Some(from)
    else IndexOf(s, needle, from + 1)
  }

  /** `s.replace(needle, replacement)` for a string `needle`: only the first occurrence
      is replaced, and nothing happens when there is none. The replacement is inserted
      as it is (see `IsLiteralReplacement` for when that agrees with JavaScript). */
  function ReplaceFirst(s: string, needle: string, replacement: string): (r: string)
    ensures (forall j :: !OccursAt(s, needle, j)) ==> r == s
    ensures forall k :: IsFirstOccurrence(s, needle, k) ==>
      r == s[..k] + replacement + s[k + |needle|..]
  {
    match IndexOf(s, needle, 0)
    case None => s
    case Some(k) => s[..k] + replacement + s[k + |needle|..]
  }

  /** JavaScript expands `$$`, `$&`, `` $` `` and `$'` in a replacement string even when the
      pattern is a plain string; a replacement without them is inserted literally. */
  predicate IsLiteralReplacement(replacement: string) {
    forall k :: 0 <= k < |replacement| - 1 && replacement[k] == '$' ==>
      replacement[k + 1] !in {'$', '&', '`', '\''}
  }

  /** Any occurrence implies a leftmost one. */
  lemma FirstOccurrenceExists(s: string, needle: string, k: int)
    requires OccursAt(s, needle, k)
    ensures IndexOf(s, needle, 0).Some?
    ensures IsFirstOccurrence(s, needle, IndexOf(s, needle, 0).value)
  {
  }

  /** A replacement that changes the length, applied where the needle occurs, changes the
      length by exactly the difference. */
  lemma ReplaceFirstLength(s: string, needle: string, replacement: string, k: int)
    requires OccursAt(s, needle, k)
    ensures |ReplaceFirst(s, needle, replacement)| == |s| - |needle| + |replacement|
  {
    FirstOccurrenceExists(s, needle, k);
  }
}
