/** The part of JavaScript's String.prototype.trim that the menu form uses:
    removal of leading and trailing white space (the WhiteSpace and
    LineTerminator code points of section 12.2 and 12.3 of ECMA-262). */
module Text {

  /** WhiteSpace (TAB, VT, FF, ZWNBSP and every Zs code point) or
      LineTerminator. Below U+00A0 these are SPACE and U+0009 to U+000D
      (TAB, LF, VT, FF, CR). */
  predicate IsWhiteSpace(c: char)
  {
    if c < '\U{00A0}' then
      c == ' ' || '\t' <= c <= '\r'
    else
      c == '\U{00A0}' || c == '\U{1680}' || ('\U{2000}' <= c <= '\U{200A}') ||
      c == '\U{2028}' || c == '\U{2029}' || c == '\U{202F}' || c == '\U{205F}' ||
      c == '\U{3000}' || c == '\U{FEFF}'
  }

  predicate AllWhiteSpace(s: string)
  {
    forall i :: 0 <= i < |s| ==> IsWhiteSpace(s[i])
  }

  /** Neither begins nor ends with white space. */
  predicate Trimmed(s: string)
  {
    s == [] || (!IsWhiteSpace(s[0]) && !IsWhiteSpace(s[|s| - 1]))
  }

  /** Drops the white space at the front: the result is a suffix of `s`
      that does not start with white space (TrimStartDropsWhiteSpace: what
      it drops is all white space). */
  function TrimStart(s: string): (r: string)
    ensures |r| <= |s| && r == s[|s| - |r|..]
    ensures r == [] || !IsWhiteSpace(r[0])
  {
    if s != [] && IsWhiteSpace(s[0]) then TrimStart(s[1..]) else s
  }

  /** Drops the white space at the back, symmetrically to TrimStart. */
  function TrimEnd(s: string): (r: string)
    ensures |r| <= |s| && r == s[..|r|]
    ensures r == [] || !IsWhiteSpace(r[|r| - 1])
  {
    if s != [] && IsWhiteSpace(s[|s| - 1]) then TrimEnd(s[..|s| - 1]) else s
  }

  /** The prefix TrimStart drops is white space. */
  lemma {:induction false} TrimStartDropsWhiteSpace(s: string)
    ensures AllWhiteSpace(s[..|s| - |TrimStart(s)|])
  {
    if s != [] && IsWhiteSpace(s[0]) {
      TrimStartDropsWhiteSpace(s[1..]);
      var k := |s| - |TrimStart(s)|;
      forall i | 0 <= i < k
        ensures IsWhiteSpace(s[..k][i])
      {
        if i > 0 {
          assert s[..k][i] == s[1..][..k - 1][i - 1];
        }
      }
    }
  }

  /** The suffix TrimEnd drops is white space. */
  lemma {:induction false} TrimEndDropsWhiteSpace(s: string)
    ensures AllWhiteSpace(s[|TrimEnd(s)|..])
  {
    if s != [] && IsWhiteSpace(s[|s| - 1]) {
      var t := s[..|s| - 1];
      TrimEndDropsWhiteSpace(t);
      var k := |TrimEnd(s)|;
      forall j | 0 <= j < |s| - k
        ensures IsWhiteSpace(s[k..][j])
      {
        if j < |s| - 1 - k {
          assert s[k..][j] == t[k..][j];
        }
      }
    }
  }

  /** String.prototype.trim: the front and back white space removed. */
  function Trim(s: string): (r: string)
    ensures Trimmed(r) && |r| <= |s|
  {
    TrimEnd(TrimStart(s))
  }

  /** The form's `!x.trim()` test: the trimmed text is empty exactly when
      the whole text is white space. */
  lemma {:induction false} TrimEmptyIff(s: string)
    ensures Trim(s) == [] <==> AllWhiteSpace(s)
  {
    var t := TrimStart(s);
    if AllWhiteSpace(s) {
      TrimStartBlank(s);
    }
    if Trim(s) == [] {
      TrimStartDropsWhiteSpace(s);
      TrimEndDropsWhiteSpace(t);
      assert t[0..] == t;
      WhiteSpaceConcat(s[..|s| - |t|], t);
      assert s[..|s| - |t|] + t == s;
    }
  }

  /** What trim leaves is the slice of the text between its leading and
      its trailing white space. */
  lemma {:induction false} TrimIsSlice(s: string)
    ensures exists i, j :: 0 <= i <= j <= |s| && Trim(s) == s[i..j] &&
                           AllWhiteSpace(s[..i]) && AllWhiteSpace(s[j..])
  {
    var t := TrimStart(s);
    var r := TrimEnd(t);
    var i := |s| - |t|;
    TrimStartDropsWhiteSpace(s);
    TrimEndDropsWhiteSpace(t);
    var j := i + |r|;
    assert r == s[i..j];
    assert s[j..] == t[|r|..];
    assert Trim(s) == s[i..j] && AllWhiteSpace(s[..i]) && AllWhiteSpace(s[j..]);
  }

  lemma {:induction false} WhiteSpaceConcat(a: string, b: string)
    requires AllWhiteSpace(a) && AllWhiteSpace(b)
    ensures AllWhiteSpace(a + b)
  {
    forall i | 0 <= i < |a + b|
      ensures IsWhiteSpace((a + b)[i])
    {
      if i < |a| { assert (a + b)[i] == a[i]; } else { assert (a + b)[i] == b[i - |a|]; }
    }
  }

  /** A text that does not start with white space is its own TrimStart. */
  lemma {:induction false} TrimStartNoSpace(s: string)
    requires s == [] || !IsWhiteSpace(s[0])
    ensures TrimStart(s) == s
  {
  }

  /** A text of white space alone trims to nothing at the front. */
  lemma {:induction false} TrimStartBlank(s: string)
    requires AllWhiteSpace(s)
    ensures TrimStart(s) == []
  {
    if s != [] {
      TrimStartBlank(s[1..]);
    }
  }

  /** Trimming removes exactly the surrounding white space: padding a
      trimmed text with white space on both sides and trimming gives it back. */
  lemma {:induction false} TrimPadding(front: string, core: string, back: string)
    requires AllWhiteSpace(front) && AllWhiteSpace(back) && Trimmed(core)
    ensures Trim(front + core + back) == core
  {
    if core == [] {
      assert front + core + back == front + back;
      WhiteSpaceConcat(front, back);
      TrimStartBlank(front + back);
    } else {
      TrimCorePadding(front, core, back);
    }
  }

  lemma {:induction false} TrimCorePadding(front: string, core: string, back: string)
    requires AllWhiteSpace(front) && AllWhiteSpace(back)
    requires core != [] && !IsWhiteSpace(core[0]) && !IsWhiteSpace(core[|core| - 1])
    ensures TrimEnd(TrimStart(front + core + back)) == core
  {
    assert (core + back)[0] == core[0];
    TrimStartPadding(front, core + back);
    assert front + core + back == front + (core + back);
    TrimEndPadding(core, back);
  }

  lemma {:induction false} TrimStartPadding(front: string, s: string)
    requires AllWhiteSpace(front)
    requires s == [] || !IsWhiteSpace(s[0])
    ensures TrimStart(front + s) == s
  {
    if front != [] {
      assert (front + s)[0] == front[0];
      assert (front + s)[1..] == front[1..] + s;
      TrimStartPadding(front[1..], s);
    }
  }

  lemma {:induction false} TrimEndPadding(s: string, back: string)
    requires AllWhiteSpace(back)
    requires s == [] || !IsWhiteSpace(s[|s| - 1])
    ensures TrimEnd(s + back) == s
  {
    if back != [] {
      assert (s + back)[|s + back| - 1] == back[|back| - 1];
      assert (s + back)[..|s + back| - 1] == s + back[..|back| - 1];
      TrimEndPadding(s, back[..|back| - 1]);
    }
  }

  /** Trimming an already trimmed text changes nothing; in particular trim
      is idempotent. */
  lemma {:induction false} TrimTrimmed(s: string)
    requires Trimmed(s)
    ensures Trim(s) == s
  {
    TrimPadding([], s, []);
    assert [] + s + [] == s;
  }

  /** Leading white space is invisible to TrimStart. */
  lemma {:induction false} TrimStartSkipsWhiteSpace(front: string, s: string)
    requires AllWhiteSpace(front)
    ensures TrimStart(front + s) == TrimStart(s)
  {
    if front != [] {
      assert (front + s)[0] == front[0];
      assert (front + s)[1..] == front[1..] + s;
      TrimStartSkipsWhiteSpace(front[1..], s);
    } else {
      assert front + s == s;
    }
  }
}
