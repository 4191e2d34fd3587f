/** Python `str` behaviour that the core files rely on: `isspace`, `strip`,
    `strip(chars)`, the `in` substring test, and slices. */
module Text {

  datatype Option<T> = None | Some(value: T)

  /** Python's `str.isspace` for one character: the Unicode characters whose
      bidirectional class is WS, B or S, or whose category is Zs. */
  predicate IsSpace(c: char): (b: bool)
    ensures c == ' ' || '\t' <= c <= '\r' ==> b
    ensures '!' <= c <= '~' ==> !b
  {
    || ('\t' <= c <= '\r')
    || ('\U{1C}' <= c <= '\U{1F}')
    || c == ' ' || c == '\U{85}' || c == '\U{A0}' || c == '\U{1680}'
    || ('\U{2000}' <= c <= '\U{200A}')
    || c == '\U{2028}' || c == '\U{2029}' || c == '\U{202F}' || c == '\U{205F}' || c == '\U{3000}'
  }

  predicate IsBacktick(c: char) { c == '`' }

  predicate AllSpace(s: string)
  {
    forall i :: 0 <= i < |s| ==> IsSpace(s[i])
  }

  /** Number of leading characters of `s` that `drop` accepts. */
  function LeadCount(s: string, drop: char -> bool): (n: nat)
    ensures n <= |s|
    ensures forall i :: 0 <= i < n ==> drop(s[i])
    ensures n < |s| ==> !drop(s[n])
  {
    if |s| > 0 && drop(s[0]) then 1 + LeadCount(s[1..], drop) else 0
  }

  /** Number of trailing characters of `s` that `drop` accepts. */
  function TrailCount(s: string, drop: char -> bool): (n: nat)
    ensures n <= |s|
    ensures forall i :: |s| - n <= i < |s| ==> drop(s[i])
    ensures n < |s| ==> !drop(s[|s| - 1 - n])
  {
    if |s| > 0 && drop(s[|s| - 1]) then 1 + TrailCount(s[..|s| - 1], drop) else 0
  }

  /** Where Python's `s.strip(...)` cuts: it keeps `s[lo..hi]`, everything
      outside is dropped, and the kept part neither starts nor ends with a
      dropped character. */
  function StripBounds(s: string, drop: char -> bool): (b: (nat, nat))
    ensures b.0 <= b.1 <= |s|
    ensures forall i :: 0 <= i < b.0 ==> drop(s[i])
    ensures forall i :: b.1 <= i < |s| ==> drop(s[i])
    ensures b.0 < b.1 ==> !drop(s[b.0]) && !drop(s[b.1 - 1])
  {
    var lo := LeadCount(s, drop);
    var t := s[lo..];
    (lo, lo + |t| - TrailCount(t, drop))
  }

  /** A string with nothing `drop` accepts at either end. */
  predicate IsStrippedBy(s: string, drop: char -> bool)
  {
    |s| > 0 ==> !drop(s[0]) && !drop(s[|s| - 1])
  }

  predicate IsStripped(s: string)
  {
    IsStrippedBy(s, IsSpace)
  }

  /** `r` is a contiguous piece of `s`. */
  ghost predicate IsSlice(r: string, s: string)
  {
    exists i, j :: 0 <= i <= j <= |s| && r == s[i..j]
  }

  function StripBy(s: string, drop: char -> bool): (r: string)
    ensures IsStrippedBy(r, drop)
    ensures IsSlice(r, s)
  {
    var b := StripBounds(s, drop);
    s[b.0..b.1]
  }

  /** Python's `s.strip()`. */
  function Strip(s: string): (r: string)
    ensures IsStripped(r)
    ensures IsSlice(r, s)
  {
    StripBy(s, IsSpace)
  }

  /** Python's `s.strip("`")`. */
  function StripBackticks(s: string): (r: string)
    ensures IsStrippedBy(r, IsBacktick)
    ensures IsSlice(r, s)
  {
    StripBy(s, IsBacktick)
  }

  /** Stripping leaves a string that is already stripped unchanged. */
  lemma StripByStripped(s: string, drop: char -> bool)
    requires IsStrippedBy(s, drop)
    ensures StripBy(s, drop) == s
  {
    var b := StripBounds(s, drop);
    if |s| > 0 {
      assert !drop(s[0]) && !drop(s[|s| - 1]);
      assert b.0 == 0 && b.1 == |s|;
    }
  }

  /** `strip` is idempotent. */
  lemma StripIdempotent(s: string)
    ensures Strip(Strip(s)) == Strip(s)
  {
    StripByStripped(Strip(s), IsSpace);
  }

  /** `LeadCount` is determined by where the first kept character is. */
  lemma LeadCountIs(s: string, drop: char -> bool, m: nat)
    requires m <= |s|
    requires forall i :: 0 <= i < m ==> drop(s[i])
    requires m < |s| ==> !drop(s[m])
    ensures LeadCount(s, drop) == m
  {
  }

  /** `TrailCount` is determined by where the last kept character is. */
  lemma TrailCountIs(s: string, drop: char -> bool, m: nat)
    requires m <= |s|
    requires forall i :: |s| - m <= i < |s| ==> drop(s[i])
    requires m < |s| ==> !drop(s[|s| - 1 - m])
    ensures TrailCount(s, drop) == m
  {
  }

  /** Surrounding whitespace does not change what `strip` returns. */
  lemma StripPadded(pre: string, w: string, post: string)
    requires AllSpace(pre) && AllSpace(post) && IsStripped(w)
    ensures Strip(pre + w + post) == w
  {
    var s := pre + w + post;
    if |w| == 0 {
      assert s == pre + post;
      LeadCountIs(s, IsSpace, |s|);
    } else {
      LeadCountIs(s, IsSpace, |pre|);
      var t := s[|pre|..];
      assert t == w + post;
      TrailCountIs(t, IsSpace, |post|);
      assert s[|pre|..|pre| + |w|] == w;
    }
  }

  /** A slice of a slice is a slice. */
  lemma SliceTransitive(a: string, b: string, c: string)
    requires IsSlice(a, b) && IsSlice(b, c)
    ensures IsSlice(a, c)
  {
    var i, j :| 0 <= i <= j <= |b| && a == b[i..j];
    var k, l :| 0 <= k <= l <= |c| && b == c[k..l];
    forall t | 0 <= t < j - i
      ensures a[t] == c[k + i + t]
    {
      assert a[t] == b[i + t];
    }
    assert a == c[k + i..k + j];
  }

  /** `sub` occurs in `s` starting at index `i`. */
  predicate OccursAt(s: string, sub: string, i: int)
  {
    0 <= i <= |s| - |sub| && s[i..i + |sub|] == sub
  }

  /** Python's `sub in s`. */
  predicate Contains(s: string, sub: string): (b: bool)
    ensures sub == [] ==> b
    ensures b ==> |sub| <= |s|
  {
    sub <= s || (|s| > 0 && Contains(s[1..], sub))
  }

  /** `sub in s` holds exactly when `sub` occurs at some index of `s`. */
  lemma {:induction false} ContainsAt(s: string, sub: string)
    ensures Contains(s, sub) <==> exists i :: OccursAt(s, sub, i)
  {
    if sub <= s {
      assert OccursAt(s, sub, 0);
    } else if |s| > 0 {
      ContainsAt(s[1..], sub);
      if Contains(s[1..], sub) {
        var i :| OccursAt(s[1..], sub, i);
        assert s[1..][i..i + |sub|] == s[i + 1..i + 1 + |sub|];
        assert OccursAt(s, sub, i + 1);
      }
      if exists i :: OccursAt(s, sub, i) {
        var i :| OccursAt(s, sub, i);
        assert s[1..][i - 1..i - 1 + |sub|] == s[i..i + |sub|];
        assert OccursAt(s[1..], sub, i - 1);
      }
    }
  }

  /** A string occurs in anything that contains a string it occurs in. */
  lemma ContainsTransitive(s: string, mid: string, sub: string)
    requires Contains(s, mid) && Contains(mid, sub)
    ensures Contains(s, sub)
  {
    ContainsAt(s, mid);
    ContainsAt(mid, sub);
    var i :| OccursAt(s, mid, i);
    var j :| OccursAt(mid, sub, j);
    assert forall t :: 0 <= t < |sub| ==> sub[t] == mid[j + t] == s[i + j + t];
    assert s[i + j..i + j + |sub|] == sub;
    assert OccursAt(s, sub, i + j);
    ContainsAt(s, sub);
  }

  /** The middle part of a concatenation occurs in it. */
  lemma ContainsMiddle(a: string, b: string, c: string)
    ensures Contains(a + b + c, b)
  {
    var s := a + b + c;
    assert s[|a|..|a| + |b|] == b;
    assert OccursAt(s, b, |a|);
    ContainsAt(s, b);
  }

  /** The inner part of a wrapped string occurs in it. */
  lemma ContainsWrapped(a: string, b: string, c: string, d: string)
    ensures Contains(a + (b + c + d), c)
  {
    ContainsMiddle(a + b, c, d);
    assert a + b + c + d == a + (b + c + d);
  }
}
