/**
 * The small helpers of app.js: `clamp`, `pad2` and the hash router
 * `getRoute`.
 */
module Helpers {
  import opened Text

  /** `Math.min(b, Math.max(a, n))` on integers. */
  function Clamp(n: int, a: int, b: int): (r: int)
    ensures a <= b ==> a <= r <= b
    ensures a <= n <= b ==> r == n
    ensures n < a <= b ==> r == a
    ensures b < n ==> r == b
    ensures b < a ==> r == b
  {
    var lifted := if a < n then n else a;
    if lifted < b then lifted else b
  }

  /** Decimal digits as JavaScript's `String(n)` prints them. */
  function DigitChar(d: nat): (c: char)
    requires d < 10
    ensures '0' <= c <= '9'
  {
    (('0' as int) + d) as char
  }

  predicate IsDigits(s: string) {
    forall i :: 0 <= i < |s| ==> '0' <= s[i] <= '9'
  }

  /**
   * `String(n)` for a non-negative integer below 10^21, where JavaScript
   * prints plain digits: no leading zero except for 0 itself. `pad2` only
   * receives date and time fields, all below 100.
   */
  function DecimalString(n: nat): (s: string)
    ensures |s| >= 1 && IsDigits(s)
    ensures |s| > 1 ==> s[0] != '0'
    ensures n < 10 <==> |s| == 1
    ensures 10 <= n < 100 <==> |s| == 2
  {
    if n < 10 then [DigitChar(n)] else DecimalString(n / 10) + [DigitChar(n % 10)]
  }

  /** The number a string of decimal digits denotes. */
  function DecimalValue(s: string): nat
    requires IsDigits(s)
  {
    if s == [] then 0 else DecimalValue(s[..|s| - 1]) * 10 + ((s[|s| - 1] as int) - ('0' as int))
  }

  /** Reading back what `String(n)` printed gives `n`. */
  lemma {:induction false} DecimalRoundTrip(n: nat)
    ensures DecimalValue(DecimalString(n)) == n
  {
    if n >= 10 {
      var t := DecimalString(n / 10);
      assert (t + [DigitChar(n % 10)])[..|t|] == t;
      DecimalRoundTrip(n / 10);
    }
  }

  /** A leading zero does not change the value of a digit string. */
  lemma {:induction false} LeadingZero(t: string)
    requires IsDigits(t)
    ensures IsDigits("0" + t) && DecimalValue("0" + t) == DecimalValue(t)
  {
    if t != [] {
      assert ("0" + t)[..|"0" + t| - 1] == "0" + t[..|t| - 1];
      LeadingZero(t[..|t| - 1]);
    }
  }

  /** `String(n).padStart(2, "0")`. */
  function Pad2(n: int): (s: string)
    ensures |s| >= 2
    ensures 0 <= n < 100 <==> |s| == 2 && IsDigits(s)
    ensures n >= 0 ==> IsDigits(s) && DecimalValue(s) == n
    ensures n < 0 ==> s[0] == '-'
  {
    if n < 0 then PadStart2("-" + DecimalString(-n))
    else
      var t := DecimalString(n);
      DecimalRoundTrip(n);
      LeadingZero(t);
      PadStart2(t)
  }

  /** `t.padStart(2, "0")`. */
  function PadStart2(t: string): string {
    if |t| < 2 then "0" + t else t
  }

  /** For 0..99 the padded form is exactly the tens digit and the units digit. */
  lemma Pad2Digits(n: int)
    requires 0 <= n < 100
    ensures Pad2(n) == [DigitChar(n / 10), DigitChar(n % 10)]
  {
    if n >= 10 {
      assert DecimalString(n / 10) == [DigitChar(n / 10)];
    }
  }

  /**
   * Two-digit padding makes string order agree with numeric order, which is
   * what lets the timestamps built with `pad2` be sorted as strings.
   */
  lemma Pad2Ordered(a: int, b: int)
    requires 0 <= a < 100 && 0 <= b < 100
    ensures StrLt(Pad2(a), Pad2(b)) <==> a < b
  {
    Pad2Digits(a);
    Pad2Digits(b);
    var s, t := Pad2(a), Pad2(b);
    assert s[1..][1..] == [] && t[1..][1..] == [];
    assert StrLt(s[1..], t[1..]) <==> s[1] < t[1];
    assert StrLt(s, t) <==> s[0] < t[0] || (s[0] == t[0] && s[1] < t[1]);
    assert s[0] < t[0] <==> a / 10 < b / 10;
    assert s[0] == t[0] <==> a / 10 == b / 10;
    assert s[1] < t[1] <==> a % 10 < b % 10;
    assert a == 10 * (a / 10) + a % 10 && b == 10 * (b / 10) + b % 10;
  }

  /** The longest prefix of `s` that does not contain `stop`. */
  function TakeUntil(s: string, stop: char): (r: string)
    ensures |r| <= |s| && r == s[..|r|] && stop !in r
    ensures |r| == |s| || s[|r|] == stop
  {
    if s == [] || s[0] == stop then [] else [s[0]] + TakeUntil(s[1..], stop)
  }

  /**
   * `getRoute`: an empty hash stands for "#/log"; a hash starting "#/" yields
   * everything after the "#" up to the first "?" (the regular expression
   * `^#(\/[^?]*)` matches greedily); any other hash yields "/log".
   */
  function Route(hash: string): (r: string)
    ensures |r| >= 1 && r[0] == '/' && '?' !in r
    ensures hash == "" ==> r == "/log"
    ensures hash != "" && !(|hash| >= 2 && hash[0] == '#' && hash[1] == '/') ==> r == "/log"
    ensures |hash| >= 2 && hash[0] == '#' && hash[1] == '/' ==>
      |r| <= |hash| - 1 && r == hash[1..1 + |r|] && (|r| == |hash| - 1 || hash[1 + |r|] == '?')
  {
    var h := if hash == "" then "#/log" else hash;
    if |h| >= 2 && h[0] == '#' && h[1] == '/' then
      var u := TakeUntil(h[2..], '?');
      assert forall i :: 0 <= i < |u| ==> u[i] == h[2 + i];
      assert |u| < |h| - 2 ==> h[2 + |u|] == '?';
      "/" + u
    else "/log"
  }

  /** The route written into a hash, with or without a query, is read back unchanged. */
  lemma RouteRoundTrip(path: string, query: string)
    requires |path| >= 1 && path[0] == '/' && '?' !in path
    requires query == "" || query[0] == '?'
    ensures Route("#" + path + query) == path
  {
    var h := "#" + path + query;
    var r := Route(h);
    assert forall i :: 0 <= i < |path| ==> h[1 + i] == path[i];
    assert |path| < |h| - 1 ==> h[1 + |path|] == '?';
    assert r == h[1..1 + |path|] == path;
  }
}
