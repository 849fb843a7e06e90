/** Character classes and Python's `str.strip()`. */
module Text {

  /** Python's `str.isspace` for one character: the characters that `str.strip()` removes and that
      the regular-expression class `\s` matches. */
  predicate IsSpace(c: char) {
    ('\t' <= c <= '\r') || ('\U{001C}' <= c <= ' ') || c == '\U{0085}' || c == '\U{00A0}'
    || c == '\U{1680}' || ('\U{2000}' <= c <= '\U{200A}') || c == '\U{2028}' || c == '\U{2029}'
    || c == '\U{202F}' || c == '\U{205F}' || c == '\U{3000}'
  }

  /** An ASCII decimal digit. */
  predicate IsDigit(c: char) {
    '0' <= c <= '9'
  }

  ghost predicate AllSpace(s: string) {
    forall i | 0 <= i < |s| :: IsSpace(s[i])
  }

  /** The number of leading characters of `s` that satisfy `p`. */
  function RunLength(s: string, p: char -> bool): (n: nat)
    ensures n <= |s|
    ensures forall i | 0 <= i < n :: p(s[i])
    ensures n < |s| ==> !p(s[n])
  {
    if s == [] || !p(s[0]) then 0 else 1 + RunLength(s[1..], p)
  }

  /** The number of trailing characters of `s` that satisfy `p`. */
  function TrailLength(s: string, p: char -> bool): (n: nat)
    ensures n <= |s|
    ensures forall i | |s| - n <= i < |s| :: p(s[i])
    ensures n < |s| ==> !p(s[|s| - n - 1])
  {
    if s == [] || !p(s[|s| - 1]) then 0 else 1 + TrailLength(s[..|s| - 1], p)
  }

  /** Python's `str.strip()` with no argument: `s` without its leading and trailing whitespace. */
  function Strip(s: string): (r: string)
    ensures r == [] <==> AllSpace(s)
    ensures r != [] ==> !IsSpace(r[0]) && !IsSpace(r[|r| - 1])
  {
    var t := s[RunLength(s, IsSpace)..];
    t[..|t| - TrailLength(t, IsSpace)]
  }

  /** The run length is the only split point with satisfying characters before it and a
      non-satisfying one (or the end) after it. */
  lemma {:induction false} RunLengthUnique(s: string, p: char -> bool, k: nat)
    requires k <= |s|
    requires forall i | 0 <= i < k :: p(s[i])
    requires k < |s| ==> !p(s[k])
    ensures RunLength(s, p) == k
  {
    if k > 0 {
      RunLengthUnique(s[1..], p, k - 1);
    }
  }

  lemma {:induction false} TrailLengthUnique(s: string, p: char -> bool, k: nat)
    requires k <= |s|
    requires forall i | |s| - k <= i < |s| :: p(s[i])
    requires k < |s| ==> !p(s[|s| - k - 1])
    ensures TrailLength(s, p) == k
  {
    if k > 0 {
      var s' := s[..|s| - 1];
      assert forall i | |s'| - (k - 1) <= i < |s'| :: s'[i] == s[i];
      TrailLengthUnique(s', p, k - 1);
    }
  }

  /** Stripping removes exactly the whitespace padding around a text whose ends are not
      whitespace, and nothing else. */
  lemma StripPadded(pre: string, core: string, post: string)
    requires AllSpace(pre) && AllSpace(post)
    requires core == [] || (!IsSpace(core[0]) && !IsSpace(core[|core| - 1]))
    ensures Strip(pre + core + post) == core
  {
    var s := pre + core + post;
    if core == [] {
      assert AllSpace(s) by {
        assert forall i | 0 <= i < |s| :: s[i] == if i < |pre| then pre[i] else post[i - |pre|];
      }
    } else {
      assert forall i | 0 <= i < |pre| :: s[i] == pre[i];
      assert s[|pre|] == core[0];
      RunLengthUnique(s, IsSpace, |pre|);
      var t := s[|pre|..];
      assert t == core + post;
      assert forall i | |core| <= i < |t| :: t[i] == post[i - |core|];
      assert t[|t| - |post| - 1] == core[|core| - 1];
      TrailLengthUnique(t, IsSpace, |post|);
      assert t[..|core|] == core;
    }
  }

  /** A text that neither begins nor ends with whitespace is left as it is. */
  lemma StripUnpadded(s: string)
    requires s == [] || (!IsSpace(s[0]) && !IsSpace(s[|s| - 1]))
    ensures Strip(s) == s
  {
    assert AllSpace([]);
    StripPadded([], s, []);
    assert [] + s + [] == s;
  }

  /** Stripping twice is stripping once. */
  lemma StripIdempotent(s: string)
    ensures Strip(Strip(s)) == Strip(s)
  {
    StripUnpadded(Strip(s));
  }

  /** Every string is its stripped text with whitespace on either side. */
  lemma StripSplits(s: string) returns (pre: string, post: string)
    ensures AllSpace(pre) && AllSpace(post)
    ensures s == pre + Strip(s) + post
  {
    var a := RunLength(s, IsSpace);
    var t := s[a..];
    var b := TrailLength(t, IsSpace);
    pre, post := s[..a], t[|t| - b..];
    assert AllSpace(post) by {
      forall i | 0 <= i < |post| ensures IsSpace(post[i]) {
        assert post[i] == t[|t| - b + i];
      }
    }
    ThreeWaySplit(s, a, b);
  }

  lemma ThreeWaySplit(s: string, a: nat, b: nat)
    requires a + b <= |s|
    ensures s == s[..a] + s[a..][..|s| - a - b] + s[a..][|s| - a - b..]
  {
    var t := s[a..];
    assert t == t[..|t| - b] + t[|t| - b..];
    assert s == s[..a] + t;
  }
}
