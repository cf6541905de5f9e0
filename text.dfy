/**
 * String.prototype.trim, as the tracker applies it to the description field: white space
 * and line terminators are removed from both ends, nothing else is touched. parseFloat
 * skips the same leading white space before it reads a number.
 */
module Text {

  /** The ECMAScript WhiteSpace and LineTerminator code points. */
  predicate IsSpace(c: char) {
    || c == ' ' || c == '\t' || c == '\n' || c == '\r'
    || c == '\U{B}' || c == '\U{C}' || c == '\U{A0}' || c == '\U{1680}'
    || ('\U{2000}' <= c <= '\U{200A}')
    || c == '\U{2028}' || c == '\U{2029}' || c == '\U{202F}' || c == '\U{205F}'
    || c == '\U{3000}' || c == '\U{FEFF}'
  }

  /** The first position at or after `i` that does not hold white space (`|s|` if there is none). */
  function SkipSpaces(s: string, i: nat): (n: nat)
    requires i <= |s|
    ensures i <= n <= |s|
    ensures n < |s| ==> !IsSpace(s[n])
    decreases |s| - i
  {
    if i < |s| && IsSpace(s[i]) then SkipSpaces(s, i + 1) else i
  }

  /** Everything SkipSpaces passes over is white space. */
  lemma {:induction false} SkipSpacesSkipsSpace(s: string, i: nat)
    requires i <= |s|
    ensures forall j :: i <= j < SkipSpaces(s, i) ==> IsSpace(s[j])
    decreases |s| - i
  {
    if i < |s| && IsSpace(s[i]) {
      SkipSpacesSkipsSpace(s, i + 1);
    }
  }

  /** SkipSpaces stops exactly at the end of a run of white space. */
  lemma {:induction false} SkipSpacesTo(s: string, i: nat, j: nat)
    requires i <= j <= |s|
    requires forall m :: i <= m < j ==> IsSpace(s[m])
    requires j < |s| ==> !IsSpace(s[j])
    ensures SkipSpaces(s, i) == j
    decreases j - i
  {
    if i < j {
      SkipSpacesTo(s, i + 1, j);
    }
  }

  /** The end of the text in `s[lo..hi]`: `hi` moved back over trailing white space, never below `lo`. */
  function BackSpaces(s: string, lo: nat, hi: nat): (e: nat)
    requires lo <= hi <= |s|
    ensures lo <= e <= hi
    ensures lo < e ==> !IsSpace(s[e - 1])
  {
    if lo < hi && IsSpace(s[hi - 1]) then BackSpaces(s, lo, hi - 1) else hi
  }

  /** Everything BackSpaces moves over is white space. */
  lemma {:induction false} BackSpacesSkipsSpace(s: string, lo: nat, hi: nat)
    requires lo <= hi <= |s|
    ensures forall j :: BackSpaces(s, lo, hi) <= j < hi ==> IsSpace(s[j])
  {
    if lo < hi && IsSpace(s[hi - 1]) {
      BackSpacesSkipsSpace(s, lo, hi - 1);
    }
  }

  /** Where the trimmed text starts in `s`. */
  function TrimOffset(s: string): nat {
    SkipSpaces(s, 0)
  }

  /** Where the trimmed text ends in `s`. */
  function TrimLimit(s: string): (e: nat)
    ensures TrimOffset(s) <= e <= |s|
  {
    BackSpaces(s, TrimOffset(s), |s|)
  }

  /** String.prototype.trim. */
  function Trim(s: string): (r: string)
    ensures |r| <= |s|
    ensures r != [] ==> !IsSpace(r[0]) && !IsSpace(r[|r| - 1])
  {
    s[TrimOffset(s)..TrimLimit(s)]
  }

  /** Trim removes white space only: everything before and after the trimmed text is white space. */
  lemma TrimDropsOnlySpace(s: string)
    ensures forall i :: 0 <= i < TrimOffset(s) ==> IsSpace(s[i])
    ensures forall i :: TrimLimit(s) <= i < |s| ==> IsSpace(s[i])
  {
    SkipSpacesSkipsSpace(s, 0);
    BackSpacesSkipsSpace(s, TrimOffset(s), |s|);
  }

  /** The trimmed text is empty exactly when every character of `s` is white space. */
  lemma TrimEmptyIff(s: string)
    ensures Trim(s) == [] <==> forall i :: 0 <= i < |s| ==> IsSpace(s[i])
  {
    TrimDropsOnlySpace(s);
    if Trim(s) != [] {
      assert !IsSpace(s[TrimOffset(s)]);
    }
  }

  /** Text that neither starts nor ends with white space. */
  predicate IsTrimmed(s: string) {
    s == [] || (!IsSpace(s[0]) && !IsSpace(s[|s| - 1]))
  }

  /** Being trimmed is being a fixed point of Trim. */
  lemma TrimmedIff(s: string)
    ensures IsTrimmed(s) <==> Trim(s) == s
  {
    if IsTrimmed(s) && s != [] {
      assert TrimOffset(s) == 0;
      assert TrimLimit(s) == |s|;
    }
  }

  /** Trimming twice is trimming once. */
  lemma TrimIdempotent(s: string)
    ensures Trim(Trim(s)) == Trim(s)
  {
    TrimmedIff(Trim(s));
  }
}
