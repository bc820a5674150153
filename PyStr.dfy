/** The pieces of Python's `str` that the key parser relies on:
    `str.strip()` (whitespace) and `str.strip(chars)`, built from `lstrip`
    and `rstrip`. */
module PyStr {

  /** The characters for which Python's `str.isspace()` holds: exactly the
      ones `str.strip()` with no argument removes. */
  const Whitespace: set<char> := {
    '\t', '\n', '\U{000B}', '\U{000C}', '\r',
    '\U{001C}', '\U{001D}', '\U{001E}', '\U{001F}', ' ',
    '\U{0085}', '\U{00A0}', '\U{1680}',
    '\U{2000}', '\U{2001}', '\U{2002}', '\U{2003}', '\U{2004}', '\U{2005}',
    '\U{2006}', '\U{2007}', '\U{2008}', '\U{2009}', '\U{200A}',
    '\U{2028}', '\U{2029}', '\U{202F}', '\U{205F}', '\U{3000}'
  }

  /** Every character of `s` is one of `cs`. */
  predicate AllIn(s: string, cs: set<char>) {
    forall i :: 0 <= i < |s| ==> s[i] in cs
  }

  /** `s.lstrip(cs)`: drops the longest prefix made of characters of `cs`. */
  function LStrip(s: string, cs: set<char>): (r: string)
    ensures |r| <= |s| && r == s[|s| - |r|..]
    ensures AllIn(s[..|s| - |r|], cs)
    ensures r == [] || r[0] !in cs
  {
    if s != [] && s[0] in cs then LStrip(s[1..], cs) else s
  }

  /** `s.rstrip(cs)`: drops the longest suffix made of characters of `cs`. */
  function RStrip(s: string, cs: set<char>): (r: string)
    ensures |r| <= |s| && r == s[..|r|]
    ensures AllIn(s[|r|..], cs)
    ensures r == [] || r[|r| - 1] !in cs
  {
    if s != [] && s[|s| - 1] in cs then
      var t := s[..|s| - 1];
      var r := RStrip(t, cs);
      assert s[|r|..] == t[|r|..] + [s[|s| - 1]];
      r
    else s
  }

  /** `s.strip(cs)`: both ends at once, so `"@@a@@".strip('@') == "a"` and a
      string made only of `cs` strips to the empty string. */
  function Strip(s: string, cs: set<char>): (r: string)
    ensures |r| <= |s|
    ensures r == [] || (r[0] !in cs && r[|r| - 1] !in cs)
    ensures AllIn(s, cs) ==> r == []
  {
    RStrip(LStrip(s, cs), cs)
  }

  /** What `lstrip` removes is a run of characters of `cs` in front of what
      it keeps. */
  lemma LStripSplit(s: string, cs: set<char>) returns (p: string)
    ensures AllIn(p, cs) && s == p + LStrip(s, cs)
  {
    var l := LStrip(s, cs);
    p := s[..|s| - |l|];
    assert s == p + l;
  }

  /** What `rstrip` removes is a run of characters of `cs` behind what it
      keeps. */
  lemma RStripSplit(s: string, cs: set<char>) returns (q: string)
    ensures AllIn(q, cs) && s == RStrip(s, cs) + q
  {
    var r := RStrip(s, cs);
    q := s[|r|..];
    assert s == s[..|r|] + q;
  }

  /** The stripped text sits between two runs of characters of `cs`: the
      prefix `lstrip` removes and the suffix `rstrip` then removes. */
  lemma StripDecomposition(s: string, cs: set<char>) returns (p: string, q: string)
    ensures AllIn(p, cs) && AllIn(q, cs)
    ensures s == p + Strip(s, cs) + q
  {
    p := LStripSplit(s, cs);
    var l := LStrip(s, cs);
    q := RStripSplit(l, cs);
    Regroup(s, p, l, RStrip(l, cs), q);
  }

  lemma Regroup(s: string, p: string, l: string, r: string, q: string)
    requires s == p + l && l == r + q
    ensures s == p + r + q
  {
    assert p + (r + q) == p + r + q;
  }

  /** A leading run of characters of `cs` makes no difference to `lstrip`. */
  lemma {:induction false} LStripSkipsPrefix(p: string, t: string, cs: set<char>)
    requires AllIn(p, cs)
    ensures LStrip(p + t, cs) == LStrip(t, cs)
  {
    if p != [] {
      var u := p + t;
      assert u[0] == p[0];
      assert LStrip(u, cs) == LStrip(u[1..], cs);
      assert u[1..] == p[1..] + t;
      LStripSkipsPrefix(p[1..], t, cs);
    } else {
      assert p + t == t;
    }
  }

  /** A trailing run of characters of `cs` makes no difference to `rstrip`. */
  lemma {:induction false} RStripSkipsSuffix(t: string, q: string, cs: set<char>)
    requires AllIn(q, cs)
    ensures RStrip(t + q, cs) == RStrip(t, cs)
  {
    if q != [] {
      var u := t + q;
      assert u[|u| - 1] == q[|q| - 1];
      assert RStrip(u, cs) == RStrip(u[..|u| - 1], cs);
      assert u[..|u| - 1] == t + q[..|q| - 1];
      RStripSkipsSuffix(t, q[..|q| - 1], cs);
    } else {
      assert t + q == t;
    }
  }

  /** `strip` is determined by its contract: whenever `s` is a run of
      characters of `cs`, then `r`, then another such run, and `r` neither
      starts nor ends with one of `cs`, `s.strip(cs)` is `r`. */
  lemma StripCharacterized(s: string, p: string, r: string, q: string, cs: set<char>)
    requires s == p + r + q
    requires AllIn(p, cs) && AllIn(q, cs)
    requires r == [] || (r[0] !in cs && r[|r| - 1] !in cs)
    ensures Strip(s, cs) == r
  {
    if r == [] {
      assert s == p + q;
      StripAllMarks(s, p, q, cs);
    } else {
      assert s == p + (r + q);
      LStripSkipsPrefix(p, r + q, cs);
      RStripSkipsSuffix(r, q, cs);
    }
  }

  /** Text made of two runs of characters of `cs` strips to nothing. */
  lemma StripAllMarks(s: string, p: string, q: string, cs: set<char>)
    requires s == p + q
    requires AllIn(p, cs) && AllIn(q, cs)
    ensures Strip(s, cs) == []
  {
    LStripSkipsPrefix(p, q, cs);
    assert q == q + [];
    LStripSkipsPrefix(q, [], cs);
  }
}
