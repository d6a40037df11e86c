/** Characters and strings as the C library sees them: `isspace` in the "C" locale and
    whitespace stripping.  A `char` stands for one byte throughout the project. */
module Text {

  /** `isspace`: space, \t, \n, \v, \f and \r. */
  predicate IsSpace(c: char) {
    c == ' ' || '\t' <= c <= '\r'
  }

  /** In the codes of the "C" locale. */
  lemma SpaceCodes(c: char)
    ensures IsSpace(c) <==> c as int in {9, 10, 11, 12, 13, 32}
  {
  }

  /** Index of the first character that is not whitespace, or the length. */
  function First(s: string, from: nat := 0): (k: nat)
    requires from <= |s|
    ensures from <= k <= |s|
    decreases |s| - from
  {
    if from < |s| && IsSpace(s[from]) then First(s, from + 1) else from
  }

  /** Index just after the last character that is not whitespace, or 0. */
  function Last(s: string, to: nat): (k: nat)
    requires to <= |s|
    ensures k <= to
  {
    if to > 0 && IsSpace(s[to - 1]) then Last(s, to - 1) else to
  }

  lemma {:induction false} FirstIs(s: string, from: nat, k: nat)
    requires from <= k <= |s|
    requires forall i :: from <= i < k ==> IsSpace(s[i])
    requires k < |s| ==> !IsSpace(s[k])
    ensures First(s, from) == k
    decreases k - from
  {
    if from < k { FirstIs(s, from + 1, k); }
  }

  lemma {:induction false} LastIs(s: string, to: nat, k: nat)
    requires k <= to <= |s|
    requires forall i :: k <= i < to ==> IsSpace(s[i])
    requires k > 0 ==> !IsSpace(s[k - 1])
    ensures Last(s, to) == k
  {
    if k < to { LastIs(s, to - 1, k); }
  }

  function LStrip(s: string): string {
    s[First(s)..]
  }

  function RStrip(s: string): string {
    s[..Last(s, |s|)]
  }

  function Trim(s: string): string {
    RStrip(LStrip(s))
  }

  function Take(s: string, n: nat): string {
    if |s| <= n then s else s[..n]
  }

  function Min(a: nat, b: nat): nat {
    if a <= b then a else b
  }

  predicate Outer(s: string) {
    s != "" ==> !IsSpace(s[0]) && !IsSpace(s[|s| - 1])
  }

  /** Trimming is determined by its outcome: a run of spaces, then a core that neither starts
      nor ends with one, then a run of spaces. */
  lemma TrimIs(s: string, i: nat, j: nat)
    requires i <= j <= |s|
    requires forall k :: 0 <= k < i ==> IsSpace(s[k])
    requires forall k :: j <= k < |s| ==> IsSpace(s[k])
    requires i < j ==> !IsSpace(s[i]) && !IsSpace(s[j - 1])
    ensures Trim(s) == s[i..j]
  {
    if i < j {
      FirstIs(s, 0, i);
      LastIs(s[i..], |s| - i, j - i);
    } else {
      FirstIs(s, 0, |s|);
    }
  }
}
