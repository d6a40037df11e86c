/** NUL-terminated strings inside character arrays, and the in-place helpers of src/ini.c.
    A C pointer into a buffer is an index into the array. */
module CString {
  import opened Text

  const NUL: char := '\0'

  predicate NulFree(s: string) {
    forall i :: 0 <= i < |s| ==> s[i] != NUL
  }

  ghost predicate Terminated(b: seq<char>, s: nat) {
    exists i :: s <= i < |b| && b[i] == NUL
  }

  /** Index of the terminator of the C string that starts at `s`. */
  ghost function End(b: seq<char>, s: nat): (e: nat)
    requires Terminated(b, s)
    ensures s <= e < |b| && b[e] == NUL
    decreases |b| - s
  {
    if b[s] == NUL then s else End(b, s + 1)
  }

  lemma {:induction false} EndClean(b: seq<char>, s: nat)
    requires Terminated(b, s)
    ensures forall i :: s <= i < End(b, s) ==> b[i] != NUL
    decreases |b| - s
  {
    if b[s] != NUL { EndClean(b, s + 1); }
  }

  /** The C string that starts at index `s`. */
  ghost function At(b: seq<char>, s: nat): (r: string)
    requires Terminated(b, s)
    ensures |r| == End(b, s) - s
  {
    b[s..End(b, s)]
  }

  lemma {:induction false} EndIs(b: seq<char>, s: nat, e: nat)
    requires s <= e < |b| && b[e] == NUL
    requires forall i :: s <= i < e ==> b[i] != NUL
    ensures Terminated(b, s) && End(b, s) == e && At(b, s) == b[s..e]
    decreases e - s
  {
    if s < e { EndIs(b, s + 1, e); }
  }

  /** Advancing a pointer within a C string drops characters from its front. */
  lemma AtSuffix(b: seq<char>, s: nat, p: nat)
    requires Terminated(b, s) && s <= p <= End(b, s)
    ensures Terminated(b, p) && End(b, p) == End(b, s) && At(b, p) == At(b, s)[p - s..]
  {
    EndClean(b, s);
    EndIs(b, p, End(b, s));
  }

  /** A C string depends only on the bytes up to its terminator. */
  lemma AtAgree(b: seq<char>, b': seq<char>, s: nat)
    requires Terminated(b, s) && |b| == |b'|
    requires forall i :: s <= i <= End(b, s) ==> b[i] == b'[i]
    ensures Terminated(b', s) && End(b', s) == End(b, s) && At(b', s) == At(b, s)
  {
    EndClean(b, s);
    EndIs(b', s, End(b, s));
  }

  /** Bytes outside `[lo, hi)` are the same in both buffers. */
  ghost predicate SameOutside(b: seq<char>, b': seq<char>, lo: nat, hi: nat) {
    |b| == |b'| && forall i :: 0 <= i < |b| && !(lo <= i < hi) ==> b[i] == b'[i]
  }

  /** `strlen`, as the index of the terminator. */
  method StrEnd(a: array<char>, s: nat) returns (e: nat)
    requires Terminated(a[..], s)
    ensures e == End(a[..], s)
  {
    e := s;
    EndClean(a[..], s);
    while a[e] != NUL
      invariant s <= e <= End(a[..], s)
      decreases a.Length - e
    {
      e := e + 1;
    }
  }

  /** Overwriting the trailing spaces of a C string with terminators strips it. */
  lemma RStripped(b: seq<char>, b': seq<char>, s: nat, p: nat)
    requires Terminated(b, s) && s <= p <= End(b, s) && SameOutside(b', b, p, End(b, s))
    requires forall i :: p <= i < End(b, s) ==> IsSpace(b[i])
    requires p > s ==> !IsSpace(b[p - 1])
    requires b'[p] == NUL
    ensures Terminated(b', s) && At(b', s) == RStrip(At(b, s))
  {
    EndClean(b, s);
    EndIs(b', s, p);
    var text := b[s..End(b, s)];
    assert forall i :: 0 <= i < |text| ==> text[i] == b[s + i];
    LastIs(text, |text|, p - s);
    forall i | s <= i < p ensures b'[i] == b[i] { }
    assert b'[s..p] == b[s..p];
    assert text[..p - s] == b[s..p];
  }

  method RStripInPlace(a: array<char>, s: nat)
    requires Terminated(a[..], s)
    modifies a
    ensures Terminated(a[..], s) && At(a[..], s) == RStrip(old(At(a[..], s)))
    ensures SameOutside(a[..], old(a[..]), s, old(End(a[..], s)))
  {
    ghost var b := a[..];
    var e := StrEnd(a, s);
    var p := e;
    while p > s && IsSpace(a[p - 1])
      invariant s <= p <= e
      invariant forall i :: 0 <= i < a.Length && !(p <= i < e) ==> a[i] == b[i]
      invariant forall i :: p <= i < e ==> IsSpace(b[i])
      invariant p < e ==> a[p] == NUL
    {
      p := p - 1;
      a[p] := NUL;
    }
    RStripped(b, a[..], s, p);
  }

  /** Moving a pointer past the leading spaces of a C string strips it on the left. */
  lemma LSkipped(b: seq<char>, s: nat, p: nat)
    requires Terminated(b, s) && s <= p <= End(b, s)
    requires forall i :: s <= i < p ==> IsSpace(b[i])
    requires p < End(b, s) ==> !IsSpace(b[p])
    ensures Terminated(b, p) && At(b, p) == LStrip(At(b, s)) && End(b, p) == End(b, s)
  {
    AtSuffix(b, s, p);
    var text := b[s..End(b, s)];
    assert forall i :: 0 <= i < |text| ==> text[i] == b[s + i];
    FirstIs(text, 0, p - s);
  }

  method LSkip(a: array<char>, s: nat) returns (p: nat)
    requires Terminated(a[..], s)
    ensures s <= p <= End(a[..], s)
    ensures Terminated(a[..], p) && At(a[..], p) == LStrip(At(a[..], s)) && End(a[..], p) == End(a[..], s)
  {
    EndClean(a[..], s);
    p := s;
    while a[p] != NUL && IsSpace(a[p])
      invariant s <= p <= End(a[..], s)
      invariant forall i :: s <= i < p ==> IsSpace(a[i])
      decreases a.Length - p
    {
      p := p + 1;
    }
    LSkipped(a[..], s, p);
  }

  /** Whether a scan for one of `chars`, or for an inline comment, stops at index `k`. */
  predicate StopsAt(s: string, chars: string, k: nat)
    requires k < |s|
  {
    s[k] in chars || (k > 0 && IsSpace(s[k - 1]) && s[k] == ';')
  }

  /** The first stop at or after `from`, or the length of the string. */
  function FindStop(s: string, chars: string, from: nat): (k: nat)
    requires from <= |s|
    ensures from <= k <= |s|
    ensures k < |s| ==> StopsAt(s, chars, k)
    decreases |s| - from
  {
    if from == |s| || StopsAt(s, chars, from) then from else FindStop(s, chars, from + 1)
  }

  lemma {:induction false} FindStopIs(s: string, chars: string, from: nat, k: nat)
    requires from <= k <= |s|
    requires k < |s| ==> StopsAt(s, chars, k)
    requires forall j :: from <= j < k ==> !StopsAt(s, chars, j)
    ensures FindStop(s, chars, from) == k
    decreases k - from
  {
    if from < k { FindStopIs(s, chars, from + 1, k); }
  }

  /** `ini_find_chars_or_comment`; a NULL `chars` is the empty string. */
  method FindCharsOrComment(a: array<char>, s: nat, chars: string) returns (e: nat)
    requires Terminated(a[..], s)
    ensures s <= e <= End(a[..], s)
    ensures e - s == FindStop(At(a[..], s), chars, 0)
    ensures e < End(a[..], s) ==> a[e] == At(a[..], s)[e - s]
    ensures a[e] == NUL <==> e == End(a[..], s)
  {
    ghost var text := At(a[..], s);
    EndClean(a[..], s);
    var wasSpace := false;
    e := s;
    while a[e] != NUL && a[e] !in chars && !(wasSpace && a[e] == ';')
      invariant s <= e <= End(a[..], s)
      invariant wasSpace == (e > s && IsSpace(a[e - 1]))
      invariant forall j :: 0 <= j < e - s ==> !StopsAt(text, chars, j)
      decreases a.Length - e
    {
      assert text[e - s] == a[e] && (e > s ==> text[e - s - 1] == a[e - 1]);
      wasSpace := IsSpace(a[e]);
      e := e + 1;
    }
    if e < End(a[..], s) {
      assert text[e - s] == a[e] && (e > s ==> text[e - s - 1] == a[e - 1]);
    }
    FindStopIs(text, chars, 0, e - s);
  }

  /** Writing a terminator at `e` cuts the string that starts at `s` there. */
  method CutAt(a: array<char>, s: nat, e: nat)
    requires Terminated(a[..], s) && s <= e <= End(a[..], s)
    modifies a
    ensures Terminated(a[..], s) && End(a[..], s) == e && At(a[..], s) == old(At(a[..], s))[..e - s]
    ensures a[e] == NUL && SameOutside(a[..], old(a[..]), e, e + 1)
  {
    EndClean(a[..], s);
    a[e] := NUL;
    EndIs(a[..], s, e);
  }

  /** `ini_strncpy0`: at most `size - 1` bytes, always terminated. */
  method StrNCpy0(dest: array<char>, src: array<char>, s: nat, size: nat)
    requires dest != src && 1 <= size <= dest.Length
    requires Terminated(src[..], s)
    modifies dest
    ensures Terminated(dest[..], 0) && At(dest[..], 0) == Take(At(src[..], s), size - 1)
  {
    EndClean(src[..], s);
    var i := 0;
    while i < size - 1 && src[s + i] != NUL
      invariant 0 <= i <= size - 1 && s + i <= End(src[..], s)
      invariant forall j :: 0 <= j < i ==> dest[j] == src[s + j]
    {
      dest[i] := src[s + i];
      i := i + 1;
    }
    dest[i] := NUL;
    EndIs(dest[..], 0, i);
  }

  /** The C string at `s` as a value, as a callee that is handed the pointer sees it. */
  function Extract(a: array<char>, s: nat): (r: string)
    requires Terminated(a[..], s)
    reads a
    ensures r == At(a[..], s)
    decreases a.Length - s
  {
    if a[s] == NUL then "" else [a[s]] + Extract(a, s + 1)
  }
}
