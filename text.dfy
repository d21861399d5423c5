/** Rust's `str::trim`: removes leading and trailing characters that have the
    Unicode White_Space property. */
module Text {

  /** `char::is_whitespace`: the code points with the White_Space property. */
  predicate IsWhitespace(c: char) {
    ('\t' <= c <= '\r') || c == ' ' || c == '\U{85}' || c == '\U{A0}' || c == '\U{1680}'
    || ('\U{2000}' <= c <= '\U{200A}') || c == '\U{2028}' || c == '\U{2029}'
    || c == '\U{202F}' || c == '\U{205F}' || c == '\U{3000}'
  }

  predicate AllWhitespace(s: string) {
    forall i :: 0 <= i < |s| ==> IsWhitespace(s[i])
  }

  /** Neither the first nor the last character is whitespace. */
  predicate Trimmed(s: string) {
    s == [] || (!IsWhitespace(s[0]) && !IsWhitespace(s[|s| - 1]))
  }

  /** Where `trim` starts: the first position at or after `i` that does not
      hold whitespace, or the end of `s`. */
  function SkipLeading(s: string, i: nat): (k: nat)
    requires i <= |s|
    ensures i <= k <= |s|
    ensures forall m :: i <= m < k ==> IsWhitespace(s[m])
    ensures k < |s| ==> !IsWhitespace(s[k])
    decreases |s| - i
  {
    if i < |s| && IsWhitespace(s[i]) then SkipLeading(s, i + 1) else i
  }

  /** Where `trim` ends: scanning back from `j`, but not below `lo`, the
      position just past the last character that is not whitespace. */
  function SkipTrailing(s: string, lo: nat, j: nat): (k: nat)
    requires lo <= j <= |s|
    ensures lo <= k <= j
    ensures forall m :: k <= m < j ==> IsWhitespace(s[m])
    ensures lo < k ==> !IsWhitespace(s[k - 1])
  {
    if lo < j && IsWhitespace(s[j - 1]) then SkipTrailing(s, lo, j - 1) else j
  }

  /** `trim`: the text between the longest whitespace prefix and suffix. */
  function Trim(s: string): (r: string)
    ensures Trimmed(r)
    ensures exists i, j :: 0 <= i <= j <= |s| && r == s[i..j] && AllWhitespace(s[..i]) && AllWhitespace(s[j..])
  {
    var i := SkipLeading(s, 0);
    var j := SkipTrailing(s, i, |s|);
    assert AllWhitespace(s[..i]);
    assert AllWhitespace(s[j..]);
    assert j == i || j == |s| || !IsWhitespace(s[i]);
    s[i..j]
  }

  /** Trimming is the only way to cut whitespace from both ends and leave a
      trimmed middle: whatever is wrapped in whitespace trims back to itself. */
  lemma TrimUnwraps(lead: string, mid: string, trail: string)
    requires AllWhitespace(lead) && AllWhitespace(trail) && Trimmed(mid)
    ensures Trim(lead + mid + trail) == mid
  {
    var s := lead + mid + trail;
    var i := SkipLeading(s, 0);
    if mid != [] {
      var e := |lead| + |mid|;
      assert s[|lead|] == mid[0];
      assert i == |lead|;
      var j := SkipTrailing(s, i, |s|);
      assert s[e - 1] == mid[|mid| - 1];
      assert j == e;
      assert s[i..j] == mid;
    }
  }

  /** Trimming twice is trimming once. */
  lemma TrimIdempotent(s: string)
    ensures Trim(Trim(s)) == Trim(s)
  {
    TrimUnwraps([], Trim(s), []);
    assert [] + Trim(s) + [] == Trim(s);
  }
}
