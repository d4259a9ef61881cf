/**
 * `String.prototype.trim` as the chat client uses it: on the draft before
 * sending (is there anything to send?) and on the reply text (what to show).
 * `trim` removes every leading and trailing character of the ECMAScript
 * WhiteSpace and LineTerminator productions and nothing else.
 */
module Text {

  /** ECMAScript WhiteSpace (TAB, VT, FF, ZWNBSP and the Unicode `Zs`
      space separators) and LineTerminator (LF, CR, LS, PS). */
  predicate IsSpace(c: char) {
    || c == '\t' || c == '\n' || c == '\U{000B}' || c == '\U{000C}' || c == '\r'
    || c == ' ' || c == '\U{00A0}' || c == '\U{1680}'
    || ('\U{2000}' <= c <= '\U{200A}')
    || c == '\U{2028}' || c == '\U{2029}' || c == '\U{202F}' || c == '\U{205F}'
    || c == '\U{3000}' || c == '\U{FEFF}'
  }

  predicate AllSpace(s: string) {
    forall k :: 0 <= k < |s| ==> IsSpace(s[k])
  }

  /** The first index at or after `i` that does not hold white space
      (or `|s|` when there is none). */
  function SkipFront(s: string, i: nat): (k: nat)
    requires i <= |s|
    ensures i <= k <= |s|
    ensures forall m :: i <= m < k ==> IsSpace(s[m])
    ensures k == |s| || !IsSpace(s[k])
    decreases |s| - i
  {
    if i < |s| && IsSpace(s[i]) then SkipFront(s, i + 1) else i
  }

  /** The end of `s[lo..j]` once its trailing white space is dropped: the
      smallest `k` such that `s[k..j]` is all white space. */
  function SkipBack(s: string, lo: nat, j: nat): (k: nat)
    requires lo <= j <= |s|
    ensures lo <= k <= j
    ensures forall m :: k <= m < j ==> IsSpace(s[m])
    ensures k == lo || !IsSpace(s[k - 1])
    decreases j
  {
    if lo < j && IsSpace(s[j - 1]) then SkipBack(s, lo, j - 1) else j
  }

  /** `s.trim()`: the slice of `s` between its leading and its trailing white
      space (see `TrimIsSlice`). It is empty exactly when `s` is all white
      space, and otherwise starts and ends with a non-space character. */
  function Trim(s: string): (r: string)
    ensures r == [] <==> AllSpace(s)
    ensures r != [] ==> !IsSpace(r[0]) && !IsSpace(r[|r| - 1])
  {
    var i := SkipFront(s, 0);
    var j := SkipBack(s, i, |s|);
    assert i < j ==> s[i] == s[i..j][0] && !IsSpace(s[i]);
    s[i..j]
  }

  /** What `trim` keeps is a slice of its argument with only white space
      before and after it. */
  lemma TrimIsSlice(s: string)
    ensures exists i :: 0 <= i <= |s| - |Trim(s)| && Trim(s) == s[i..i + |Trim(s)|]
                        && AllSpace(s[..i]) && AllSpace(s[i + |Trim(s)|..])
  {
    var i := SkipFront(s, 0);
    var j := SkipBack(s, i, |s|);
    assert AllSpace(s[..i]) by {
      forall k | 0 <= k < i ensures IsSpace(s[..i][k]) { assert s[..i][k] == s[k]; }
    }
    assert AllSpace(s[j..]) by {
      forall k | 0 <= k < |s| - j ensures IsSpace(s[j..][k]) { assert s[j..][k] == s[j + k]; }
    }
    assert Trim(s) == s[i..j];
  }

  /** Scanning forward over white space stops exactly at the first
      non-space character. */
  lemma {:induction false} SkipFrontStops(s: string, i: nat, k: nat)
    requires i <= k <= |s|
    requires forall m :: i <= m < k ==> IsSpace(s[m])
    requires k == |s| || !IsSpace(s[k])
    ensures SkipFront(s, i) == k
    decreases k - i
  {
    if i < k {
      SkipFrontStops(s, i + 1, k);
    }
  }

  /** Scanning backward over white space stops exactly after the last
      non-space character. */
  lemma {:induction false} SkipBackStops(s: string, lo: nat, k: nat, j: nat)
    requires lo <= k <= j <= |s|
    requires forall m :: k <= m < j ==> IsSpace(s[m])
    requires k == lo || !IsSpace(s[k - 1])
    ensures SkipBack(s, lo, j) == k
    decreases j - k
  {
    if k < j {
      SkipBackStops(s, lo, k, j - 1);
    }
  }

  /** `trim` is determined by what it keeps: white space on both sides of a
      core that starts and ends with a non-space character is exactly what
      `trim` removes. */
  lemma TrimUnique(a: string, core: string, b: string)
    requires AllSpace(a) && AllSpace(b)
    requires core != [] ==> !IsSpace(core[0]) && !IsSpace(core[|core| - 1])
    ensures Trim(a + core + b) == core
  {
    var s := a + core + b;
    var i, j := |a|, |a| + |core|;
    assert forall m :: 0 <= m < i ==> s[m] == a[m];
    assert forall m :: j <= m < |s| ==> s[m] == b[m - j];
    if core == [] {
      SkipFrontStops(s, 0, |s|);
    } else {
      assert s[i] == core[0] && s[j - 1] == core[|core| - 1];
      SkipFrontStops(s, 0, i);
      SkipBackStops(s, i, j, |s|);
      assert s[i..j] == core;
    }
  }

  /** Trimming twice is trimming once. */
  lemma TrimIdempotent(s: string)
    ensures Trim(Trim(s)) == Trim(s)
  {
    var r := Trim(s);
    assert [] + r + [] == r;
    TrimUnique([], r, []);
  }

}
