/** The two loop shapes the services use over the rows a DAO returns: keep the
    rows that pass a test (`for _, x := range rows { if ok(x) { out =
    append(out, x) } }`) and search for a row that passes it (the same loop
    with an early `return true`). */
module Seqs {

  /** The rows of s that pass keep, in their order. */
  function Filter<T>(s: seq<T>, keep: T -> bool): (r: seq<T>)
    ensures |r| <= |s|
    ensures forall i :: 0 <= i < |r| ==> r[i] in s && keep(r[i])
    ensures forall i :: 0 <= i < |s| && keep(s[i]) ==> s[i] in r
  {
    if s == [] then []
    else Filter(s[..|s| - 1], keep) + (if keep(s[|s| - 1]) then [s[|s| - 1]] else [])
  }

  /** Filtering distributes over concatenation, so it keeps the order. */
  lemma {:induction false} FilterConcat<T>(a: seq<T>, b: seq<T>, keep: T -> bool)
    ensures Filter(a + b, keep) == Filter(a, keep) + Filter(b, keep)
    decreases |b|
  {
    if b == [] {
      assert a + b == a;
    } else {
      assert (a + b)[..|a + b| - 1] == a + b[..|b| - 1];
      FilterConcat(a, b[..|b| - 1], keep);
    }
  }

  /** Filtering twice by the same test changes nothing. */
  lemma {:induction false} FilterIdempotent<T>(s: seq<T>, keep: T -> bool)
    ensures Filter(Filter(s, keep), keep) == Filter(s, keep)
  {
    if s != [] {
      var front := s[..|s| - 1];
      FilterIdempotent(front, keep);
      var last := s[|s| - 1];
      if keep(last) {
        assert Filter(s, keep) == Filter(front, keep) + [last];
        FilterConcat(Filter(front, keep), [last], keep);
        assert [last][..0] == [];
        assert Filter([last], keep) == [last];
      } else {
        assert Filter(s, keep) == Filter(front, keep);
      }
    }
  }

  /** Two tests that agree on every row of s keep the same rows. */
  lemma {:induction false} FilterSame<T>(s: seq<T>, keep: T -> bool, keep': T -> bool)
    requires forall i :: 0 <= i < |s| ==> keep(s[i]) == keep'(s[i])
    ensures Filter(s, keep) == Filter(s, keep')
  {
    if s != [] {
      FilterSame(s[..|s| - 1], keep, keep');
    }
  }

  /** When every row passes, filtering returns the rows unchanged. */
  lemma {:induction false} FilterAll<T>(s: seq<T>, keep: T -> bool)
    requires forall i :: 0 <= i < |s| ==> keep(s[i])
    ensures Filter(s, keep) == s
  {
    if s != [] {
      FilterAll(s[..|s| - 1], keep);
      assert s[..|s| - 1] + [s[|s| - 1]] == s;
    }
  }

  /** The row-by-row loop that keeps the rows passing keep. */
  method Keep<T>(s: seq<T>, keep: T -> bool) returns (r: seq<T>)
    ensures r == Filter(s, keep)
  {
    r := [];
    for i := 0 to |s|
      invariant r == Filter(s[..i], keep)
    {
      assert s[..i + 1][..i] == s[..i];
      if keep(s[i]) {
        r := r + [s[i]];
      }
    }
    assert s[..|s|] == s;
  }

  /** The row-by-row search that stops at the first row passing p. */
  method Any<T>(s: seq<T>, p: T -> bool) returns (found: bool)
    ensures found <==> exists i :: 0 <= i < |s| && p(s[i])
  {
    for i := 0 to |s|
      invariant forall j :: 0 <= j < i ==> !p(s[j])
    {
      if p(s[i]) {
        return true;
      }
    }
    return false;
  }
}
