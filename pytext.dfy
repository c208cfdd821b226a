/**
  The two Python string methods the fence stripper chains: `s.replace(p, "")`
  and `s.strip()` with no argument.
 */
module PyText {
  import opened Outcomes
  import opened PyJson

  /** What follows `p` in `t`, when `t` starts with `p`. */
  function AfterPrefix(t: string, p: string): (r: Option<string>)
    ensures r.Some? <==> p <= t
    ensures r.Some? ==> t == p + r.value
  {
    if p <= t then Some(t[|p|..]) else None
  }

  lemma AfterPrefixOf(p: string, x: string)
    ensures AfterPrefix(p + x, p) == Some(x)
  {
    assert (p + x)[..|p|] == p;
    assert (p + x)[|p|..] == x;
  }

  /** `s.replace(p, "")`: scans left to right and deletes every
      non-overlapping occurrence of `p`. */
  function RemoveAll(s: string, p: string): (r: string)
    requires p != []
    ensures |r| <= |s|
    decreases |s|
  {
    if |s| < |p| then s
    else if s[..|p|] == p then RemoveAll(s[|p|..], p)
    else [s[0]] + RemoveAll(s[1..], p)
  }

  /** A string without an occurrence of `p` comes back unchanged. */
  lemma {:induction false} RemoveAllAbsent(s: string, p: string)
    requires p != [] && !ContainsSubstring(s, p)
    ensures RemoveAll(s, p) == s
    decreases |s|
  {
    if |s| >= |p| {
      assert !OccursAt(s, p, 0);
      forall i | 0 <= i <= |s[1..]| && OccursAt(s[1..], p, i)
        ensures false
      {
        assert s[1..][i..i + |p|] == s[i + 1..i + 1 + |p|];
        assert OccursAt(s, p, i + 1);
      }
      RemoveAllAbsent(s[1..], p);
    }
  }

  /** The scan deletes the leftmost occurrence of `p` and keeps everything
      before it: when `p` first occurs right after `a`, the result is `a`
      followed by the scan of what comes after that occurrence. Together
      with `RemoveAllAbsent` this fixes the result on every string. */
  lemma {:induction false} RemoveAllLeftmost(a: string, b: string, p: string)
    requires p != [] && !ContainsSubstring(a + p[..|p| - 1], p)
    ensures RemoveAll(a + p + b, p) == a + RemoveAll(b, p)
    decreases |a|
  {
    var s := a + p + b;
    if a == [] {
      assert s[..|p|] == p && s[|p|..] == b by { assert s == p + b; }
    } else {
      assert s[..|p|] != p by {
        var w := a + p[..|p| - 1];
        assert !OccursAt(w, p, 0);
        assert s[..|p|] == w[..|p|];
      }
      RemoveAllKeepsFirst(s, p);
      AbsenceAfterFirst(a, p);
      RemoveAllLeftmost(a[1..], b, p);
      assert s[1..] == a[1..] + p + b;
      assert [a[0]] + a[1..] == a;
    }
  }

  lemma RemoveAllKeepsFirst(s: string, p: string)
    requires p != [] && |s| >= |p| && s[..|p|] != p
    ensures RemoveAll(s, p) == [s[0]] + RemoveAll(s[1..], p)
  {
  }

  lemma AbsenceAfterFirst(a: string, p: string)
    requires p != [] && a != [] && !ContainsSubstring(a + p[..|p| - 1], p)
    ensures !ContainsSubstring(a[1..] + p[..|p| - 1], p)
  {
    var w := a + p[..|p| - 1];
    SliceKeepsAbsence(w, 1, |w|, p);
    assert w[1..|w|] == a[1..] + p[..|p| - 1];
  }

  /** A prefix none of whose characters can start `p` passes through. */
  lemma {:induction false} RemoveAllSkipsPrefix(t: string, u: string, p: string)
    requires p != [] && p[0] !in t
    ensures RemoveAll(t + u, p) == t + RemoveAll(u, p)
    decreases |t|
  {
    if t != [] {
      var s := t + u;
      assert s[0] == t[0];
      assert s[1..] == t[1..] + u;
      if |s| < |p| {
        assert RemoveAll(u, p) == u;
        assert RemoveAll(s, p) == s;
      } else {
        assert s[..|p|][0] == s[0] != p[0];
        assert RemoveAll(s, p) == [s[0]] + RemoveAll(s[1..], p);
        RemoveAllSkipsPrefix(t[1..], u, p);
        assert t == [t[0]] + t[1..];
      }
    } else {
      assert t + u == u;
    }
  }

  /** The characters Python's `str.isspace` accepts, which `strip()` removes. */
  predicate IsSpace(c: char) {
    c == ' ' || ('\t' <= c <= '\r') || ('\U{1c}' <= c <= '\U{1f}')
    || c == '\U{85}' || c == '\U{a0}' || c == '\U{1680}'
    || ('\U{2000}' <= c <= '\U{200a}')
    || c == '\U{2028}' || c == '\U{2029}' || c == '\U{202f}' || c == '\U{205f}' || c == '\U{3000}'
  }

  predicate AllSpace(t: string) {
    forall k :: 0 <= k < |t| ==> IsSpace(t[k])
  }

  /** Drops the leading whitespace: what is left is a suffix of `s` that
      does not start with whitespace. */
  function TrimStart(s: string): (r: string)
    ensures |r| <= |s| && r == s[|s| - |r|..]
    ensures AllSpace(s[..|s| - |r|])
    ensures r != [] ==> !IsSpace(r[0])
  {
    if s != [] && IsSpace(s[0]) then
      var r := TrimStart(s[1..]);
      assert s[..|s| - |r|] == [s[0]] + s[1..][..|s| - 1 - |r|];
      r
    else s
  }

  /** Drops the trailing whitespace: what is left is a prefix of `s` that
      does not end with whitespace. */
  function TrimEnd(s: string): (r: string)
    ensures |r| <= |s| && r == s[..|r|]
    ensures AllSpace(s[|r|..])
    ensures r != [] ==> !IsSpace(r[|r| - 1])
  {
    if s != [] && IsSpace(s[|s| - 1]) then
      var shorter := s[..|s| - 1];
      var r := TrimEnd(shorter);
      assert s[|r|..] == shorter[|r|..] + [s[|s| - 1]];
      assert r == s[..|r|] by { assert shorter[..|r|] == s[..|r|]; }
      r
    else s
  }

  /** `s.strip()`: empty exactly when `s` is all whitespace, and otherwise
      neither starts nor ends with whitespace. */
  function Strip(s: string): (r: string)
    ensures |r| <= |s|
    ensures r == [] <==> AllSpace(s)
    ensures r != [] ==> !IsSpace(r[0]) && !IsSpace(r[|r| - 1])
  {
    var a := TrimStart(s);
    var r := TrimEnd(a);
    assert r != [] ==> r[0] == a[0];
    assert a != [] ==> a[0] == s[|s| - |a|] && !AllSpace(a) && !AllSpace(s);
    r
  }

  /** `s[i..j]` is a stripped core of `s`: everything around it is
      whitespace and it neither starts nor ends with whitespace. */
  predicate StrippedAt(s: string, i: int, j: int) {
    0 <= i <= j <= |s| && AllSpace(s[..i]) && AllSpace(s[j..])
    && (i < j ==> !IsSpace(s[i]) && !IsSpace(s[j - 1]))
  }

  /** `Strip` cuts exactly one such slice out of its argument. */
  lemma StripIsSlice(s: string) returns (i: nat, j: nat)
    ensures StrippedAt(s, i, j) && Strip(s) == s[i..j]
  {
    var a := TrimStart(s);
    var b := TrimEnd(a);
    i := |s| - |a|;
    j := i + |b|;
    assert a[|b|..] == s[j..];
    assert b == s[i..j];
  }

  lemma {:induction false} TrimStartAt(s: string, i: int)
    requires 0 <= i <= |s| && AllSpace(s[..i]) && (i < |s| ==> !IsSpace(s[i]))
    ensures TrimStart(s) == s[i..]
    decreases i
  {
    if i > 0 {
      assert IsSpace(s[..i][0]);
      assert s[1..][..i - 1] == s[1..i];
      assert forall k :: 0 <= k < i - 1 ==> s[1..i][k] == s[..i][k + 1];
      TrimStartAt(s[1..], i - 1);
      assert s[1..][i - 1..] == s[i..];
    }
  }

  lemma {:induction false} TrimEndAt(s: string, m: int)
    requires 0 <= m <= |s| && AllSpace(s[m..]) && (m > 0 ==> !IsSpace(s[m - 1]))
    ensures TrimEnd(s) == s[..m]
    decreases |s| - m
  {
    if m < |s| {
      var s' := s[..|s| - 1];
      assert IsSpace(s[m..][|s| - 1 - m]);
      assert forall k :: 0 <= k < |s'| - m ==> s'[m..][k] == s[m..][k];
      TrimEndAt(s', m);
      assert s'[..m] == s[..m];
    }
  }

  /** ... and that slice is the only one: a string whose slice `s[i..j]` is
      surrounded by whitespace and free of it at both ends strips to it. */
  lemma StripUnique(s: string, i: int, j: int)
    requires StrippedAt(s, i, j)
    ensures Strip(s) == s[i..j]
  {
    if i < j {
      StripCoreAt(s, i, j);
    } else {
      forall k | 0 <= k < |s|
        ensures IsSpace(s[k])
      {
        if k < i { assert s[k] == s[..i][k]; } else { assert s[k] == s[j..][k - j]; }
      }
      assert s[i..j] == [];
    }
  }

  lemma StripCoreAt(s: string, i: int, j: int)
    requires StrippedAt(s, i, j) && i < j
    ensures TrimEnd(TrimStart(s)) == s[i..j]
  {
    TrimStartAt(s, i);
    var t := s[i..];
    assert AllSpace(t[j - i..]) by { assert t[j - i..] == s[j..]; }
    assert !IsSpace(t[j - i - 1]) by { assert t[j - i - 1] == s[j - 1]; }
    TrimEndAt(t, j - i);
    assert t[..j - i] == s[i..j];
  }

  /** Stripping twice is stripping once. */
  lemma StripIdempotent(s: string)
    ensures Strip(Strip(s)) == Strip(s)
  {
    var i, j := StripIsSlice(s);
    var t := s[i..j];
    assert AllSpace(t[..0]) && AllSpace(t[|t|..]);
    StripUnique(t, 0, |t|);
  }

  /** Stripping never creates an occurrence of `p`. */
  lemma StripKeepsAbsence(s: string, p: string)
    requires !ContainsSubstring(s, p)
    ensures !ContainsSubstring(Strip(s), p)
  {
    var i, j := StripIsSlice(s);
    SliceKeepsAbsence(s, i, j, p);
  }

  /** A slice of `s` contains `p` only when `s` does. */
  lemma SliceKeepsAbsence(s: string, i: int, j: int, p: string)
    requires 0 <= i <= j <= |s| && !ContainsSubstring(s, p)
    ensures !ContainsSubstring(s[i..j], p)
  {
    var t := s[i..j];
    forall k | 0 <= k <= |t|
      ensures !OccursAt(t, p, k)
    {
      if k + |p| <= |t| {
        var w := t[k..k + |p|];
        assert forall m :: 0 <= m < |p| ==> w[m] == s[i + k + m];
        assert w == s[i + k..i + k + |p|];
        assert !OccursAt(s, p, i + k);
      }
    }
  }
}
