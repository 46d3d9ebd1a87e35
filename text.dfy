/**
 * Python string operations used on corpus lines: `str.isspace` for one
 * character and the argument-less `str.strip()`.
 */
module Text {

  /**
   * The characters Python treats as whitespace: the ASCII controls TAB to CR,
   * the four information separators, SPACE, NEL, NO-BREAK SPACE and the
   * Unicode space separators and line/paragraph separators.
   */
  const Whitespace: set<char> :=
    {'\U{9}', '\U{A}', '\U{B}', '\U{C}', '\U{D}', '\U{1C}', '\U{1D}', '\U{1E}',
     '\U{1F}', '\U{20}', '\U{85}', '\U{A0}', '\U{1680}', '\U{2000}', '\U{2001}',
     '\U{2002}', '\U{2003}', '\U{2004}', '\U{2005}', '\U{2006}', '\U{2007}',
     '\U{2008}', '\U{2009}', '\U{200A}', '\U{2028}', '\U{2029}', '\U{202F}',
     '\U{205F}', '\U{3000}'}

  predicate IsSpace(c: char)
  {
    c in Whitespace
  }

  predicate AllSpace(s: string)
  {
    forall i :: 0 <= i < |s| ==> IsSpace(s[i])
  }

  /** `s.lstrip()`: the suffix of s that remains after the leading whitespace. */
  function StripLeft(s: string): (t: string)
    ensures |t| <= |s|
  {
    if s == [] || !IsSpace(s[0]) then s else StripLeft(s[1..])
  }

  /** lstrip keeps a suffix, removes only whitespace, and stops at a non-whitespace character. */
  lemma {:induction false} StripLeftTrims(s: string)
    ensures var t := StripLeft(s);
            && t == s[|s| - |t|..]
            && AllSpace(s[..|s| - |t|])
            && (t == [] || !IsSpace(t[0]))
  {
    if s != [] && IsSpace(s[0]) {
      StripLeftTrims(s[1..]);
      var t := StripLeft(s);
      assert s[..|s| - |t|] == [s[0]] + s[1..][..|s| - 1 - |t|];
    }
  }

  /** `s.rstrip()`: the prefix of s that remains before the trailing whitespace. */
  function StripRight(s: string): (t: string)
    ensures |t| <= |s|
  {
    if s == [] || !IsSpace(s[|s| - 1]) then s else StripRight(s[..|s| - 1])
  }

  /** rstrip keeps a prefix, removes only whitespace, and stops at a non-whitespace character. */
  lemma {:induction false} StripRightTrims(s: string)
    ensures var t := StripRight(s);
            && t == s[..|t|]
            && AllSpace(s[|t|..])
            && (t == [] || !IsSpace(t[|t| - 1]))
  {
    if s != [] && IsSpace(s[|s| - 1]) {
      var init := s[..|s| - 1];
      StripRightTrims(init);
      var t := StripRight(s);
      assert s[|t|..] == init[|t|..] + [s[|s| - 1]];
    }
  }

  /** The number of leading whitespace characters of s. */
  function Lead(s: string): nat
  {
    |s| - |StripLeft(s)|
  }

  /** `s.strip()`: s without its leading and trailing whitespace. */
  function Strip(s: string): string
  {
    StripRight(StripLeft(s))
  }

  /**
   * What `strip()` removes: the result is a contiguous piece of s with only
   * whitespace around it, starting and ending with a non-whitespace
   * character, and it is empty exactly when s is all whitespace.
   */
  lemma StripTrims(s: string)
    ensures var t := Strip(s);
            && Lead(s) + |t| <= |s| && t == s[Lead(s)..Lead(s) + |t|]
            && AllSpace(s[..Lead(s)]) && AllSpace(s[Lead(s) + |t|..])
            && (t == [] || (!IsSpace(t[0]) && !IsSpace(t[|t| - 1])))
            && (t == [] <==> AllSpace(s))
  {
    StripParts(s);
    StripEmpty(s);
    StripLeftTrims(s);
    StripRightTrims(StripLeft(s));
  }

  lemma StripParts(s: string)
    ensures var t := StripRight(StripLeft(s));
            Lead(s) + |t| <= |s| && t == s[Lead(s)..Lead(s) + |t|]
            && AllSpace(s[Lead(s) + |t|..])
  {
    var l := StripLeft(s);
    var t := StripRight(l);
    StripLeftTrims(s);
    StripRightTrims(l);
    assert l == s[Lead(s)..];
    assert s[Lead(s) + |t|..] == l[|t|..];
  }

  lemma StripEmpty(s: string)
    ensures StripRight(StripLeft(s)) == [] <==> AllSpace(s)
  {
    var l := StripLeft(s);
    StripLeftTrims(s);
    StripRightTrims(l);
    if StripRight(l) == [] {
      assert l == [];
      assert s[..|s|] == s;
    } else {
      assert !IsSpace(l[0]) && l[0] == s[Lead(s)];
    }
  }
}
