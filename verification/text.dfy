/** Python string and list primitives the core relies on: str.isspace,
    str.strip, str.replace, slicing, and the notion of a subsequence. */
module Text {

  /** Python's str.isspace(): the characters `\s` matches in a str pattern
      and the characters str.strip() removes. */
  predicate IsSpace(c: char) {
    ('\t' <= c <= '\r') || ('\U{1C}' <= c <= ' ') || c == '\U{85}' || c == '\U{A0}'
    || c == '\U{1680}' || ('\U{2000}' <= c <= '\U{200A}') || c == '\U{2028}'
    || c == '\U{2029}' || c == '\U{202F}' || c == '\U{205F}' || c == '\U{3000}'
  }

  /** str.lstrip(): the suffix left after dropping leading whitespace. */
  function LStrip(s: string): (r: string)
    ensures |r| <= |s| && r == s[|s| - |r|..]
    ensures forall k :: 0 <= k < |s| - |r| ==> IsSpace(s[k])
    ensures r == [] || !IsSpace(r[0])
  {
    if s == [] || !IsSpace(s[0]) then s
    else LStrip(s[1..])
  }

  /** str.rstrip(): the prefix left after dropping trailing whitespace. */
  function RStrip(s: string): (r: string)
    ensures |r| <= |s| && r == s[..|r|]
    ensures forall k :: |r| <= k < |s| ==> IsSpace(s[k])
    ensures r == [] || !IsSpace(r[|r| - 1])
  {
    if s != [] && IsSpace(s[|s| - 1]) then RStrip(s[..|s| - 1]) else s
  }

  /** str.strip() */
  function Strip(s: string): (r: string)
    ensures r == [] || (!IsSpace(r[0]) && !IsSpace(r[|r| - 1]))
  {
    RStrip(LStrip(s))
  }

  /** The stripped string is a contiguous piece of the input. */
  lemma StripIsInfix(s: string)
    ensures exists a :: InfixAt(Strip(s), s, a)
  {
    var l := LStrip(s);
    var a := |s| - |l|;
    assert Strip(s) == l[..|Strip(s)|] == s[a..a + |Strip(s)|];
    assert InfixAt(Strip(s), s, a);
  }

  /** `r` occurs in `s` starting at index `lo`. */
  predicate InfixAt<T(==)>(r: seq<T>, s: seq<T>, lo: int) {
    0 <= lo <= |s| - |r| && r == s[lo..lo + |r|]
  }

  /** str.replace(pat, rep): every non-overlapping occurrence of `pat`,
      scanning from the left, is replaced by `rep`. */
  function ReplaceAll(s: string, pat: string, rep: string): string
    requires pat != []
    decreases |s|
  {
    if |s| < |pat| then s
    else if s[..|pat|] == pat then rep + ReplaceAll(s[|pat|..], pat, rep)
    else [s[0]] + ReplaceAll(s[1..], pat, rep)
  }

  /** `a` is obtained from `b` by deleting elements. */
  predicate IsSubseq<T(==)>(a: seq<T>, b: seq<T>)
    decreases |b|
  {
    a == [] || (b != [] && ((a[0] == b[0] && IsSubseq(a[1..], b[1..])) || IsSubseq(a, b[1..])))
  }

  lemma {:induction false} SubseqRefl<T>(a: seq<T>)
    ensures IsSubseq(a, a)
    decreases |a|
  {
    if a != [] { SubseqRefl(a[1..]); }
  }

  lemma {:induction false} SubseqDrop<T>(a: seq<T>, b: seq<T>, k: nat)
    requires k <= |b| && IsSubseq(a, b[k..])
    ensures IsSubseq(a, b)
    decreases k
  {
    if k > 0 && a != [] {
      assert b[1..][k - 1..] == b[k..];
      SubseqDrop(a, b[1..], k - 1);
    }
  }

  lemma {:induction false} SubseqTrans<T>(a: seq<T>, b: seq<T>, c: seq<T>)
    requires IsSubseq(a, b) && IsSubseq(b, c)
    ensures IsSubseq(a, c)
    decreases |c|
  {
    if a != [] {
      if IsSubseq(b, c[1..]) {
        SubseqTrans(a, b, c[1..]);
      } else if a[0] == b[0] && IsSubseq(a[1..], b[1..]) {
        SubseqTrans(a[1..], b[1..], c[1..]);
      } else {
        SubseqTrans(a, b[1..], c[1..]);
      }
    }
  }

  /** Deleting elements never introduces one. */
  lemma {:induction false} SubseqMembers<T>(a: seq<T>, b: seq<T>)
    requires IsSubseq(a, b)
    ensures forall x :: x in a ==> x in b
    decreases |b|
  {
    if a != [] {
      if a[0] == b[0] && IsSubseq(a[1..], b[1..]) {
        SubseqMembers(a[1..], b[1..]);
        assert forall x :: x in a ==> x == a[0] || x in a[1..];
      } else {
        SubseqMembers(a, b[1..]);
      }
    }
  }

  /** A subsequence of a later suffix is a subsequence of an earlier one. */
  lemma SubseqSuffix<T>(a: seq<T>, s: seq<T>, i: nat, n: nat)
    requires i <= n <= |s| && IsSubseq(a, s[n..])
    ensures IsSubseq(a, s[i..])
  {
    assert s[i..][n - i..] == s[n..];
    SubseqDrop(a, s[i..], n - i);
  }

  /** Keeping the first element of a suffix. */
  lemma SubseqKeepHead<T>(a: seq<T>, s: seq<T>, i: nat)
    requires i < |s| && IsSubseq(a, s[i + 1..])
    ensures IsSubseq([s[i]] + a, s[i..])
  {
    assert ([s[i]] + a)[0] == s[i..][0];
    assert ([s[i]] + a)[1..] == a;
    assert s[i..][1..] == s[i + 1..];
  }

  /** Appending the same element to both sides, or only to the larger one,
      keeps a subsequence. */
  lemma {:induction false} SnocSubseq<T>(a: seq<T>, b: seq<T>, x: T, keep: bool)
    requires IsSubseq(a, b)
    ensures IsSubseq(a + (if keep then [x] else []), b + [x])
    decreases |b|
  {
    if b == [] {
      if keep { assert IsSubseq([x][1..], [x][1..]); }
    } else if a == [] {
      SnocSubseq(a, b[1..], x, keep);
      assert (b + [x])[1..] == b[1..] + [x];
    } else if a[0] == b[0] && IsSubseq(a[1..], b[1..]) {
      SnocSubseq(a[1..], b[1..], x, keep);
      assert (a + (if keep then [x] else []))[1..] == a[1..] + (if keep then [x] else []);
      assert (b + [x])[1..] == b[1..] + [x];
    } else {
      SnocSubseq(a, b[1..], x, keep);
      assert (b + [x])[1..] == b[1..] + [x];
    }
  }

  /** Taking the first element off a suffix, with something appended. */
  lemma SliceCons<T>(s: seq<T>, k: nat, tail: seq<T>)
    requires k < |s|
    ensures s[k..] + tail == [s[k]] + (s[k + 1..] + tail)
  {
    assert s[k..] == [s[k]] + s[k + 1..];
  }

  /** A property of every element carries over to a contiguous piece. */
  lemma AllInfix<T>(r: seq<T>, s: seq<T>, lo: int, p: T -> bool)
    requires InfixAt(r, s, lo)
    requires forall k :: 0 <= k < |s| ==> p(s[k])
    ensures forall k :: 0 <= k < |r| ==> p(r[k])
  {
    forall k | 0 <= k < |r| ensures p(r[k]) {
      assert r[k] == s[lo + k];
    }
  }

  /** A property of every element carries over to a subsequence. */
  lemma AllSubseq<T>(a: seq<T>, b: seq<T>, p: T -> bool)
    requires IsSubseq(a, b)
    requires forall k :: 0 <= k < |b| ==> p(b[k])
    ensures forall k :: 0 <= k < |a| ==> p(a[k])
  {
    SubseqMembers(a, b);
    forall k | 0 <= k < |a| ensures p(a[k]) {
      assert a[k] in a;
      var m :| 0 <= m < |b| && b[m] == a[k];
    }
  }

  /** A property holds for every element exactly when it holds for all but
      the last, and for the last. */
  lemma AllSnoc<T>(s: seq<T>, p: T -> bool)
    requires s != []
    ensures (forall i :: 0 <= i < |s| ==> p(s[i]))
            <==> (forall i :: 0 <= i < |s| - 1 ==> p(s[i])) && p(s[|s| - 1])
  {
  }

  lemma SliceHead<T>(s: seq<T>, j: nat, e: nat)
    requires j < e <= |s|
    ensures s[j..e] == [s[j]] + s[j + 1..e]
  {
  }

  lemma AppendJoin<T>(h: seq<T>, p: seq<T>, z: seq<T>, a: seq<T>, b: seq<T>, whole: seq<T>)
    requires a == h + b && b == p + z && whole == h + p
    ensures a == whole + z
  {
  }

  lemma EqConcat<T>(x: seq<T>, a: seq<T>, b: seq<T>, a2: seq<T>, b2: seq<T>, y: seq<T>)
    requires x == a + b && a == a2 && b == b2 && y == a2 + b2
    ensures x == y
  {
  }

  /** A prefix is a shorter prefix followed by the slice between them. */
  lemma PrefixSplit<T>(s: seq<T>, lo: nat, hi: nat)
    requires lo <= hi <= |s|
    ensures s[..hi] == s[..lo] + s[lo..hi]
  {
  }

  /** A non-empty sequence is its front followed by its last element. */
  lemma SplitLast<T>(s: seq<T>)
    requires s != []
    ensures s == s[..|s| - 1] + [s[|s| - 1]]
  {
  }

  /** A suffix is a slice followed by a shorter suffix. */
  lemma SuffixSplit<T>(s: seq<T>, lo: nat, mid: nat)
    requires lo <= mid <= |s|
    ensures s[lo..] == s[lo..mid] + s[mid..]
  {
  }

  /** Head and tail of a concatenation with a non-empty front. */
  lemma AppendTail<T>(a: seq<T>, c: seq<T>)
    requires a != []
    ensures (a + c)[0] == a[0] && (a + c)[1..] == a[1..] + c
  {
  }

  lemma AppendAssoc<T>(a: seq<T>, b: seq<T>, c: seq<T>)
    ensures a + b + c == a + (b + c)
  {
  }

  lemma ConsAssoc<T>(x: T, s: seq<T>, tail: seq<T>)
    ensures [x] + s + tail == [x] + (s + tail)
  {
  }

  /** Python's `s[a:b]` (step 1): a negative bound counts from the end, then
      both bounds are clamped to 0..len(s); an empty range gives []. */
  function PySlice<T>(s: seq<T>, a: int, b: int): (r: seq<T>)
    ensures 0 <= a <= b <= |s| ==> r == s[a..b]
    ensures 0 <= a && |s| <= b ==> r == s[Min(a, |s|)..]
    ensures 0 <= b <= a ==> r == []
    ensures exists lo :: InfixAt(r, s, lo)
  {
    var lo := Clamp(if a < 0 then a + |s| else a, |s|);
    var hi := Clamp(if b < 0 then b + |s| else b, |s|);
    if lo < hi then (assert InfixAt(s[lo..hi], s, lo); s[lo..hi])
    else (assert InfixAt(s[0..0], s, 0); s[0..0])
  }

  function Min(a: int, b: int): int { if a < b then a else b }

  function Clamp(x: int, n: nat): (r: nat)
    ensures r <= n
  {
    if x < 0 then 0 else if x > n then n else x
  }
}
