/** Candidates, ballots and the sequence helpers the voting rules share:
    Python's string order, occurrence counts, first-occurrence deduplication
    (the key order of a Counter or of a dict comprehension) and `list.index`. */
module Names {

  /** A candidate is an opaque name; ballots list candidates, most preferred first. */
  type Candidate = string
  type Ballot = seq<Candidate>

  /** Python's `<` on `str`: lexicographic by code point, a proper prefix first. */
  predicate NameLess(a: Candidate, b: Candidate)
    decreases |a|
  {
    if b == [] then false
    else if a == [] then true
    else a[0] < b[0] || (a[0] == b[0] && NameLess(a[1..], b[1..]))
  }

  lemma {:induction false} NameLessIrreflexive(a: Candidate)
    ensures !NameLess(a, a)
    decreases |a|
  {
    if a != [] {
      NameLessIrreflexive(a[1..]);
    }
  }

  lemma {:induction false} NameLessAsymmetric(a: Candidate, b: Candidate)
    ensures NameLess(a, b) ==> !NameLess(b, a)
    decreases |a|
  {
    if a != [] && b != [] {
      NameLessAsymmetric(a[1..], b[1..]);
    }
  }

  lemma {:induction false} NameLessTransitive(a: Candidate, b: Candidate, c: Candidate)
    requires NameLess(a, b) && NameLess(b, c)
    ensures NameLess(a, c)
    decreases |a|
  {
    if a != [] && a[0] == b[0] && b[0] == c[0] {
      NameLessTransitive(a[1..], b[1..], c[1..]);
    }
  }

  /** A proper prefix comes first, as `"ab" < "abc"` in Python. */
  lemma {:induction false} NameLessPrefix(a: Candidate, b: Candidate)
    requires a < b
    ensures NameLess(a, b)
    decreases |a|
  {
    if a != [] {
      assert a[0] == b[0];
      assert a[1..] < b[1..];
      NameLessPrefix(a[1..], b[1..]);
    }
  }

  /** Two different names are always ordered one way or the other. */
  lemma {:induction false} NameLessTotal(a: Candidate, b: Candidate)
    ensures a == b || NameLess(a, b) || NameLess(b, a)
    decreases |a|
  {
    if a != [] && b != [] && a[0] == b[0] {
      NameLessTotal(a[1..], b[1..]);
      assert a == [a[0]] + a[1..] && b == [b[0]] + b[1..];
    }
  }

  /** No candidate occurs twice. */
  predicate Distinct<T(==)>(s: seq<T>)
  {
    forall i, j :: 0 <= i < j < |s| ==> s[i] != s[j]
  }

  /** A sequence with no repeats holds every value at most once. */
  lemma {:induction false} DistinctOnce<T>(s: seq<T>, x: T)
    requires Distinct(s)
    ensures multiset(s)[x] <= 1
  {
    if s != [] {
      var init := s[..|s| - 1];
      assert s == init + [s[|s| - 1]];
      DistinctOnce(init, x);
      assert s[|s| - 1] !in init;
    }
  }

  /** Reordering keeps a sequence free of repeats. */
  lemma DistinctPermutation<T>(a: seq<T>, b: seq<T>)
    requires multiset(a) == multiset(b) && Distinct(a)
    ensures Distinct(b)
  {
    forall i, j | 0 <= i < j < |b| ensures b[i] != b[j] {
      if b[i] == b[j] {
        assert b == b[..j] + b[j..];
        assert b[..j][i] == b[i] && b[j..][0] == b[i];
        assert multiset(b) == multiset(b[..j]) + multiset(b[j..]);
        assert multiset(b)[b[i]] >= 2;
        DistinctOnce(a, b[i]);
        assert false;
      }
    }
  }

  /** Number of occurrences of `x` in `s`: what a `Counter` holds for `x`
      (`Counter.get(x, 0)` when `x` does not occur). */
  function Count<T(==)>(s: seq<T>, x: T): (r: nat)
    ensures r > 0 <==> x in s
    ensures r <= |s|
  {
    if s == [] then 0
    else Count(s[..|s| - 1], x) + (if s[|s| - 1] == x then 1 else 0)
  }

  /** Appends, in order, every element of `s` not already present, skipping
      repeats: the second loop of `get_outcome_order`, and (from `[]`) the key
      order of a Counter or a dict comprehension over `s`. */
  function AppendNew<T(==,!new)>(acc: seq<T>, s: seq<T>): (r: seq<T>)
    ensures |acc| <= |r| <= |acc| + |s| && r[..|acc|] == acc
    ensures forall x :: x in r <==> x in acc || x in s
    ensures forall i :: |acc| <= i < |r| ==> r[i] !in acc && r[i] in s
    ensures Distinct(acc) ==> Distinct(r)
  {
    if s == [] then acc
    else
      var prev := AppendNew(acc, s[..|s| - 1]);
      if s[|s| - 1] in prev then prev else prev + [s[|s| - 1]]
  }

  /** The appended elements keep the order of their first occurrences in `s`. */
  lemma {:induction false} AppendNewOrder<T(!new)>(acc: seq<T>, s: seq<T>)
    ensures forall i, j :: |acc| <= i < j < |AppendNew(acc, s)| ==>
      IndexOf(s, AppendNew(acc, s)[i]) < IndexOf(s, AppendNew(acc, s)[j])
  {
    if s != [] {
      var init := s[..|s| - 1];
      var last := s[|s| - 1];
      var prev := AppendNew(acc, init);
      var r := AppendNew(acc, s);
      AppendNewOrder(acc, init);
      assert s == init + [last];
      assert r == if last in prev then prev else prev + [last];
      forall i | |acc| <= i < |prev| ensures IndexOf(s, prev[i]) == IndexOf(init, prev[i]) < |init| {
        IndexOfExtend(init, last, prev[i]);
      }
      if last !in prev {
        IndexOfNew(init, last);
        forall i, j | |acc| <= i < j < |r| ensures IndexOf(s, r[i]) < IndexOf(s, r[j]) {
          if j < |prev| {
            assert r[i] == prev[i] && r[j] == prev[j];
          } else {
            assert r[i] == prev[i] && r[j] == last;
          }
        }
      }
    }
  }

  /** Appending to a list does not move the first position of a value already in it. */
  lemma IndexOfExtend<T>(s: seq<T>, y: T, x: T)
    requires x in s
    ensures IndexOf(s + [y], x) == IndexOf(s, x) < |s|
  {
    var i := IndexOf(s, x);
    var t := s + [y];
    assert t[..i] == s[..i];
    IndexOfUnique(t, x, i);
  }

  /** A value appended to a list that lacks it sits at the last position. */
  lemma IndexOfNew<T>(s: seq<T>, y: T)
    requires y !in s
    ensures IndexOf(s + [y], y) == |s|
  {
    var t := s + [y];
    assert t[..|s|] == s;
    IndexOfUnique(t, y, |s|);
  }

  /** The first position holding `x` is the only position before which `x` does not occur. */
  lemma {:induction false} IndexOfUnique<T>(s: seq<T>, x: T, i: nat)
    requires i < |s| && s[i] == x && x !in s[..i]
    ensures IndexOf(s, x) == i
  {
    if i > 0 {
      assert s[..i][0] == s[0];
      assert s[1..][..i - 1] == s[..i][1..];
      IndexOfUnique(s[1..], x, i - 1);
    }
  }

  /** The distinct elements of `s` in order of first occurrence. */
  function Dedup<T(==,!new)>(s: seq<T>): (r: seq<T>)
    ensures Distinct(r)
    ensures forall x :: x in r <==> x in s
    ensures |r| <= |s|
  {
    AppendNew([], s)
  }

  /** The keys of a Counter or dict follow the first occurrences in `s`. */
  lemma DedupOrder<T(!new)>(s: seq<T>)
    ensures forall i, j :: 0 <= i < j < |Dedup(s)| ==> IndexOf(s, Dedup(s)[i]) < IndexOf(s, Dedup(s)[j])
  {
    AppendNewOrder([], s);
  }

  /** Python's `list.index`: the first position holding `x`. */
  function IndexOf<T(==)>(s: seq<T>, x: T): (r: nat)
    requires x in s
    ensures r < |s| && s[r] == x
    ensures x !in s[..r]
  {
    if s[0] == x then 0 else 1 + IndexOf(s[1..], x)
  }
}
