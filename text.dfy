/**
 * String helpers the work-log code relies on: `String.prototype.trim`,
 * JavaScript's `<` ordering on strings, and the injectivity of the
 * separator-joined keys the code builds (`a + "__" + b`, `a + "||" + b`).
 */
module Text {

  /**
   * The characters `String.prototype.trim` removes: ECMAScript WhiteSpace
   * (TAB, VT, FF, ZWNBSP and the Unicode space separators) and
   * LineTerminator (LF, CR, LS, PS).
   */
  predicate IsSpace(c: char) {
    || c == '\t' || c == '\n' || c == '\U{000B}' || c == '\U{000C}' || c == '\r'
    || c == ' ' || c == '\U{00A0}' || c == '\U{1680}'
    || ('\U{2000}' <= c <= '\U{200A}')
    || c == '\U{2028}' || c == '\U{2029}' || c == '\U{202F}' || c == '\U{205F}'
    || c == '\U{3000}' || c == '\U{FEFF}'
  }

  predicate AllSpace(s: string) {
    forall i :: 0 <= i < |s| ==> IsSpace(s[i])
  }

  /** `s` without its leading white space. */
  function TrimStart(s: string): string {
    if s == [] || !IsSpace(s[0]) then s else TrimStart(s[1..])
  }

  /** `TrimStart` removes a prefix of white space, and all of it. */
  lemma {:induction false} TrimStartSpec(s: string)
    ensures var r := TrimStart(s);
      && |r| <= |s| && r == s[|s| - |r|..]
      && AllSpace(s[..|s| - |r|])
      && (r == [] || !IsSpace(r[0]))
  {
    if s != [] && IsSpace(s[0]) {
      TrimStartSpec(s[1..]);
      var r := TrimStart(s[1..]);
      assert s[|s| - |r|..] == s[1..][|s| - 1 - |r|..];
      assert s[..|s| - |r|] == [s[0]] + s[1..][..|s| - 1 - |r|];
    }
  }

  /** `s` without its trailing white space. */
  function TrimEnd(s: string): string {
    if s == [] || !IsSpace(s[|s| - 1]) then s else TrimEnd(s[..|s| - 1])
  }

  /** `TrimEnd` removes a suffix of white space, and all of it. */
  lemma {:induction false} TrimEndSpec(s: string)
    ensures var r := TrimEnd(s);
      && |r| <= |s| && r == s[..|r|]
      && AllSpace(s[|r|..])
      && (r == [] || !IsSpace(r[|r| - 1]))
  {
    if s != [] && IsSpace(s[|s| - 1]) {
      TrimEndSpec(s[..|s| - 1]);
      var r := TrimEnd(s[..|s| - 1]);
      assert s[..|r|] == s[..|s| - 1][..|r|];
      assert s[|r|..] == s[..|s| - 1][|r|..] + [s[|s| - 1]];
    }
  }

  /**
   * `String.prototype.trim`: the part of `s` between its leading and its
   * trailing white space.
   */
  function Trim(s: string): string {
    TrimEnd(TrimStart(s))
  }

  /**
   * `Trim(s)` is a piece of `s` that starts after a run of white space and is
   * followed by one, and that neither starts nor ends with white space.
   */
  lemma TrimSpec(s: string)
    ensures var t, r := TrimStart(s), Trim(s);
      && |r| <= |t| <= |s|
      && t == s[|s| - |t|..] && AllSpace(s[..|s| - |t|])
      && r == t[..|r|] && AllSpace(t[|r|..])
      && (r == [] || (!IsSpace(r[0]) && !IsSpace(r[|r| - 1])))
  {
    var t := TrimStart(s);
    TrimStartSpec(s);
    TrimEndSpec(t);
    var r := TrimEnd(t);
    if r != [] {
      assert r[0] == t[0];
    }
  }

  /** `!s || !s.trim()`: the string is empty or white space only. */
  predicate IsBlank(s: string) {
    Trim(s) == []
  }

  /** A string is blank exactly when every character of it is white space. */
  lemma BlankIffAllSpace(s: string)
    ensures IsBlank(s) <==> AllSpace(s)
  {
    TrimSpec(s);
    var t := TrimStart(s);
    var a := |s| - |t|;
    if IsBlank(s) {
      assert t[..0] == [] && t[0..] == t;
      assert AllSpace(t);
      assert s == s[..a] + t;
    } else {
      assert t != [] && !IsSpace(t[0]);
      assert s[a] == t[0];
    }
  }

  /** Trimming an already trimmed string changes nothing. */
  lemma TrimIdempotent(s: string)
    ensures Trim(Trim(s)) == Trim(s)
  {
    TrimSpec(s);
    var r := Trim(s);
    assert TrimStart(r) == r;
    assert TrimEnd(r) == r;
  }

  /**
   * JavaScript's `a < b` on strings: lexicographic order on characters,
   * a proper prefix coming first.
   */
  predicate StrLt(a: string, b: string) {
    if a == [] then b != []
    else if b == [] then false
    else a[0] < b[0] || (a[0] == b[0] && StrLt(a[1..], b[1..]))
  }

  lemma {:induction false} StrLtIrreflexive(a: string)
    ensures !StrLt(a, a)
  {
    if a != [] {
      StrLtIrreflexive(a[1..]);
    }
  }

  lemma {:induction false} StrLtTransitive(a: string, b: string, c: string)
    requires StrLt(a, b) && StrLt(b, c)
    ensures StrLt(a, c)
  {
    if a != [] && a[0] == b[0] && b[0] == c[0] {
      StrLtTransitive(a[1..], b[1..], c[1..]);
    }
  }

  /** Any two different strings are ordered one way or the other. */
  lemma {:induction false} StrLtTotal(a: string, b: string)
    ensures a == b || StrLt(a, b) || StrLt(b, a)
  {
    if a != [] && b != [] && a[0] == b[0] {
      StrLtTotal(a[1..], b[1..]);
      if a[1..] == b[1..] {
        assert a == [a[0]] + a[1..] && b == [b[0]] + b[1..];
      }
    }
  }

  /**
   * `a + sep + b` determines `a` and `b` when the first character of the
   * separator never occurs in the left part.
   */
  lemma JoinInjectiveLeft(a: string, b: string, c: string, d: string, sep: string)
    requires sep != [] && sep[0] !in a && sep[0] !in c
    requires a + sep + b == c + sep + d
    ensures a == c && b == d
  {
    var x := a + sep + b;
    // |a| and |c| are both the position of the first separator character
    assert x[|a|] == sep[0] && forall i :: 0 <= i < |a| ==> x[i] == a[i];
    assert x[|c|] == sep[0] && forall i :: 0 <= i < |c| ==> x[i] == c[i];
    assert |a| == |c|;
    assert a == x[..|a|] && c == x[..|c|];
    assert b == x[|a| + |sep|..] && d == x[|c| + |sep|..];
  }

  /**
   * `a + sep + b` determines `a` and `b` when the last character of the
   * separator never occurs in the right part.
   */
  lemma JoinInjectiveRight(a: string, b: string, c: string, d: string, sep: string)
    requires sep != [] && sep[|sep| - 1] !in b && sep[|sep| - 1] !in d
    requires a + sep + b == c + sep + d
    ensures a == c && b == d
  {
    var x := a + sep + b;
    var n := |x|;
    // |b| and |d| are both the distance of the last separator character from the end
    assert x[n - 1 - |b|] == sep[|sep| - 1] && forall j :: n - |b| <= j < n ==> x[j] == b[j - (n - |b|)];
    assert x[n - 1 - |d|] == sep[|sep| - 1] && forall j :: n - |d| <= j < n ==> x[j] == d[j - (n - |d|)];
    assert |b| == |d|;
    assert a == x[..|a|] && c == x[..|c|];
    assert b == x[|a| + |sep|..] && d == x[|c| + |sep|..];
  }

  /** With the left part fixed, `a + sep + b` determines `b`. */
  lemma JoinCancelLeft(a: string, sep: string, b: string, d: string)
    ensures a + sep + b == a + sep + d ==> b == d
  {
    assert b == (a + sep + b)[|a| + |sep|..];
    assert d == (a + sep + d)[|a| + |sep|..];
  }
}
