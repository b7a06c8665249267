/** Small generic building blocks shared by the other modules. */
module Util {

  datatype Option<T> = None | Some(value: T)

  /** No element occurs twice. */
  predicate Distinct<T(==)>(s: seq<T>) {
    forall i, j :: 0 <= i < j < |s| ==> s[i] != s[j]
  }

  /**
   * The distinct elements of `s` in order of first occurrence: the order in
   * which a JavaScript `Map` or plain object enumerates keys that were
   * inserted while walking `s`.
   */
  function Dedup<T(==,!new)>(s: seq<T>): (r: seq<T>)
    ensures forall x :: x in r <==> x in s
    ensures Distinct(r)
    ensures |r| <= |s|
    decreases |s|
  {
    if s == [] then []
    else
      var d := Dedup(s[..|s| - 1]);
      if s[|s| - 1] in d then d else d + [s[|s| - 1]]
  }

  /** Whatever `r` lists before an element occurs in `s` before every occurrence of that element. */
  predicate FirstOccurrenceOrder<T(==)>(s: seq<T>, r: seq<T>) {
    forall a, b, j :: 0 <= a < b < |r| && 0 <= j < |s| && s[j] == r[b] ==> r[a] in s[..j]
  }

  /**
   * `Dedup` keeps first-occurrence order: an element listed before another
   * one occurs in `s` before every occurrence of that other one.
   */
  lemma {:induction false} DedupFirstOccurrence<T(!new)>(s: seq<T>)
    ensures FirstOccurrenceOrder(s, Dedup(s))
  {
    if s != [] {
      var n := |s| - 1;
      var init := s[..n];
      var d := Dedup(init);
      var r := Dedup(s);
      DedupFirstOccurrence(init);
      assert s == init + [s[n]];
      forall a, b, j | 0 <= a < b < |r| && 0 <= j < |s| && s[j] == r[b]
        ensures r[a] in s[..j]
      {
        if j < n {
          assert init[j] == s[j] && s[j] in init;
          assert b < |d|;
          assert r[a] == d[a] && r[b] == d[b] && init[j] == d[b];
          assert d[a] in init[..j];
          assert init[..j] == s[..j];
        } else {
          assert r[a] in d;
          assert s[..j] == init;
        }
      }
    }
  }

  /** `Dedup` extends step by step, exactly as a loop that inserts keys does. */
  lemma DedupSnoc<T(!new)>(s: seq<T>, x: T)
    ensures Dedup(s + [x]) == if x in Dedup(s) then Dedup(s) else Dedup(s) + [x]
  {
    assert (s + [x])[..|s + [x]| - 1] == s;
  }
}
