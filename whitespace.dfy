/** Rust's `str::trim` over a line held as a sequence of Unicode scalar values. */
module Whitespace {

  /** The Unicode White_Space property, which `char::is_whitespace` (and so `str::trim`) tests. */
  predicate IsWs(c: char)
  {
    || ('\U{9}' <= c <= '\U{D}')
    || c == ' ' || c == '\U{85}' || c == '\U{A0}' || c == '\U{1680}'
    || ('\U{2000}' <= c <= '\U{200A}')
    || c == '\U{2028}' || c == '\U{2029}' || c == '\U{202F}' || c == '\U{205F}' || c == '\U{3000}'
  }

  /** `s` without its leading white space. */
  function TrimStart(s: string): (r: string)
    ensures |r| <= |s|
    ensures forall q :: 0 <= q < |s| - |r| ==> IsWs(s[q])
    ensures r != [] ==> !IsWs(r[0])
  {
    if s != [] && IsWs(s[0]) then TrimStart(s[1..]) else s
  }

  /** `s` without its trailing white space. */
  function TrimEnd(s: string): (r: string)
    ensures |r| <= |s|
    ensures forall q :: |r| <= q < |s| ==> IsWs(s[q])
    ensures r != [] ==> !IsWs(r[|r| - 1])
  {
    if s != [] && IsWs(s[|s| - 1]) then TrimEnd(s[..|s| - 1]) else s
  }

  /** `str::trim`: both ends stripped; what is left neither starts nor ends with white space. */
  function Trim(s: string): (r: string)
    ensures r != [] ==> !IsWs(r[0]) && !IsWs(r[|r| - 1])
  {
    TrimEndIsPrefix(TrimStart(s));
    TrimEnd(TrimStart(s))
  }

  /** What `TrimStart` keeps is a suffix of its argument. */
  lemma {:induction false} TrimStartIsSuffix(s: string)
    ensures TrimStart(s) == s[|s| - |TrimStart(s)|..]
  {
    if s != [] && IsWs(s[0]) {
      TrimStartIsSuffix(s[1..]);
      assert s[1..][|s| - 1 - |TrimStart(s)|..] == s[|s| - |TrimStart(s)|..];
    }
  }

  /** What `TrimEnd` keeps is a prefix of its argument. */
  lemma {:induction false} TrimEndIsPrefix(s: string)
    ensures TrimEnd(s) == s[..|TrimEnd(s)|]
  {
    if s != [] && IsWs(s[|s| - 1]) {
      TrimEndIsPrefix(s[..|s| - 1]);
    }
  }

  /**
   * A reference definition of `Trim`: if `s[a..b]` is surrounded only by white space and
   * (when it is not empty) begins and ends with a scalar that is not, it is what `Trim` keeps.
   */
  lemma TrimIsCore(s: string, a: nat, b: nat)
    requires a <= b <= |s|
    requires forall q :: 0 <= q < a ==> IsWs(s[q])
    requires forall q :: b <= q < |s| ==> IsWs(s[q])
    requires a < b ==> !IsWs(s[a]) && !IsWs(s[b - 1])
    ensures Trim(s) == s[a..b]
  {
    var t := TrimStart(s);
    TrimStartIsSuffix(s);
    assert t == s[a..] || a == b;
    if a < b {
      var u := TrimEnd(t);
      TrimEndIsPrefix(t);
      assert u == s[a..b];
    }
  }

  /** Trimming twice is trimming once. */
  lemma TrimIdempotent(s: string)
    ensures Trim(Trim(s)) == Trim(s)
  {
    var t := Trim(s);
    TrimIsCore(t, 0, |t|);
  }

  /** Where `Trim` cuts: `Trim(t)` is `t[a..b]`, and only white space lies outside it. */
  lemma TrimBounds(t: string) returns (a: nat, b: nat)
    ensures a <= b <= |t| && Trim(t) == t[a..b]
    ensures forall q :: 0 <= q < a ==> IsWs(t[q])
    ensures forall q :: b <= q < |t| ==> IsWs(t[q])
  {
    var ts := TrimStart(t);
    var tr := TrimEnd(ts);
    TrimStartIsSuffix(t);
    TrimEndIsPrefix(ts);
    a := |t| - |ts|;
    b := a + |tr|;
    forall q | b <= q < |t|
      ensures IsWs(t[q])
    {
      assert t[q] == ts[q - a];
    }
  }

  /** White space added around a string does not change what `Trim` keeps. */
  lemma TrimIgnoresPadding(pre: string, t: string, post: string)
    requires forall q :: 0 <= q < |pre| ==> IsWs(pre[q])
    requires forall q :: 0 <= q < |post| ==> IsWs(post[q])
    ensures Trim(pre + t + post) == Trim(t)
  {
    var a, b := TrimBounds(t);
    var s := pre + t + post;
    assert s[|pre| + a..|pre| + b] == t[a..b];
    forall q | 0 <= q < |pre| + a
      ensures IsWs(s[q])
    {
      if q < |pre| {
        assert s[q] == pre[q];
      } else {
        assert s[q] == t[q - |pre|];
      }
    }
    forall q | |pre| + b <= q < |s|
      ensures IsWs(s[q])
    {
      if q < |pre| + |t| {
        assert s[q] == t[q - |pre|];
      } else {
        assert s[q] == post[q - |pre| - |t|];
      }
    }
    TrimIsCore(s, |pre| + a, |pre| + b);
  }
}
