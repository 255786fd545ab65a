/** `itertools.permutations(s)`: every arrangement of the positions of `s`,
    in lexicographic order of the positions. The first element runs over
    `s[0], s[1], ...` in turn, followed by the arrangements of the rest. */
module Permute {

  function Fact(n: nat): (r: nat)
    ensures r >= 1
  {
    if n == 0 then 1 else n * Fact(n - 1)
  }

  /** `s` without its element at position `j`. */
  function Without<T>(s: seq<T>, j: nat): (r: seq<T>)
    requires j < |s|
    ensures |r| == |s| - 1
  {
    s[..j] + s[j + 1..]
  }

  /** `[x] + p` for every `p` of `ps`, in order. */
  function Prepend<T>(x: T, ps: seq<seq<T>>): (r: seq<seq<T>>)
    ensures |r| == |ps|
    ensures forall i :: 0 <= i < |ps| ==> r[i] == [x] + ps[i]
  {
    seq(|ps|, i requires 0 <= i < |ps| => [x] + ps[i])
  }

  function Permutations<T>(s: seq<T>): seq<seq<T>>
    decreases |s|, 1
  {
    if s == [] then [[]] else Picks(s, |s|)
  }

  /** The arrangements of `s` that start with one of `s[0..k]`. */
  function Picks<T>(s: seq<T>, k: nat): seq<seq<T>>
    requires k <= |s|
    decreases |s|, 0, k
  {
    if k == 0 then []
    else Picks(s, k - 1) + Prepend(s[k - 1], Permutations(Without(s, k - 1)))
  }

  /** `len(list(permutations(s))) == factorial(len(s))`, repeats counted. */
  lemma {:induction false} PermutationsCount<T>(s: seq<T>)
    ensures |Permutations(s)| == Fact(|s|)
    decreases |s|, 1
  {
    if s != [] {
      PicksCount(s, |s|);
    }
  }

  lemma {:induction false} PicksCount<T>(s: seq<T>, k: nat)
    requires 0 < |s| && k <= |s|
    ensures |Picks(s, k)| == k * Fact(|s| - 1)
    decreases |s|, 0, k
  {
    if k > 0 {
      PicksCount(s, k - 1);
      PermutationsCount(Without(s, k - 1));
      var f := Fact(|s| - 1);
      assert k * f == (k - 1) * f + f;
    }
  }

  /** Taking one element out and putting it in front keeps the multiset. */
  lemma WithoutMultiset<T>(s: seq<T>, j: nat)
    requires j < |s|
    ensures multiset([s[j]] + Without(s, j)) == multiset(s)
  {
    assert s == s[..j] + [s[j]] + s[j + 1..];
  }

  /** Every arrangement produced is a rearrangement of `s`. */
  lemma {:induction false} PermutationsSound<T>(s: seq<T>)
    ensures forall p :: p in Permutations(s) ==> multiset(p) == multiset(s)
    decreases |s|, 1
  {
    if s != [] {
      PicksSound(s, |s|);
    }
  }

  lemma {:induction false} PicksSound<T>(s: seq<T>, k: nat)
    requires 0 < |s| && k <= |s|
    ensures forall p :: p in Picks(s, k) ==> multiset(p) == multiset(s)
    decreases |s|, 0, k
  {
    if k > 0 {
      PicksSound(s, k - 1);
      var rest := Without(s, k - 1);
      PermutationsSound(rest);
      WithoutMultiset(s, k - 1);
      var front := Prepend(s[k - 1], Permutations(rest));
      forall p | p in front ensures multiset(p) == multiset(s) {
        var i :| 0 <= i < |front| && front[i] == p;
        assert Permutations(rest)[i] in Permutations(rest);
      }
    }
  }

  /** Every rearrangement of `s` is produced. */
  lemma {:induction false} PermutationsComplete<T>(s: seq<T>, p: seq<T>)
    requires multiset(p) == multiset(s)
    ensures p in Permutations(s)
    decreases |s|, 1
  {
    if s == [] {
      assert p == [];
    } else {
      assert |p| == |multiset(p)| == |s|;
      assert p[0] in multiset(s);
      var j :| 0 <= j < |s| && s[j] == p[0];
      PicksComplete(s, j + 1, j, p);
      PicksGrow(s, j + 1, |s|);
    }
  }

  lemma {:induction false} PicksComplete<T>(s: seq<T>, k: nat, j: nat, p: seq<T>)
    requires j < k <= |s| && multiset(p) == multiset(s) && p != [] && s[j] == p[0]
    ensures p in Picks(s, k)
    decreases |s|, 0, k
  {
    if j == k - 1 {
      var rest := Without(s, j);
      RestRearranged(s, j, p);
      PermutationsComplete(rest, p[1..]);
      var i :| 0 <= i < |Permutations(rest)| && Permutations(rest)[i] == p[1..];
      assert Prepend(s[j], Permutations(rest))[i] == p;
    } else {
      PicksComplete(s, k - 1, j, p);
    }
  }

  /** Once `s[j]` is put first, the rest of `p` rearranges the rest of `s`. */
  lemma RestRearranged<T>(s: seq<T>, j: nat, p: seq<T>)
    requires j < |s| && multiset(p) == multiset(s) && p != [] && s[j] == p[0]
    ensures multiset(p[1..]) == multiset(Without(s, j))
  {
    var rest := Without(s, j);
    WithoutMultiset(s, j);
    assert p == [p[0]] + p[1..];
    assert multiset(p[1..]) == multiset(p) - multiset([p[0]]);
    assert multiset(rest) == multiset([s[j]] + rest) - multiset([s[j]]);
  }

  /** The arrangements picked among `s[0..k]` stay among those picked from `s[0..l]`. */
  lemma {:induction false} PicksGrow<T>(s: seq<T>, k: nat, l: nat)
    requires k <= l <= |s|
    ensures forall p :: p in Picks(s, k) ==> p in Picks(s, l)
    decreases l - k
  {
    if k < l {
      PicksGrow(s, k, l - 1);
    }
  }

  /** The first arrangement yielded is `s` itself, in its own order. */
  lemma {:induction false} PermutationsFirst<T>(s: seq<T>)
    ensures |Permutations(s)| > 0 && Permutations(s)[0] == s
    decreases |s|, 1
  {
    if s != [] {
      PicksFirst(s, |s|);
    }
  }

  lemma {:induction false} PicksFirst<T>(s: seq<T>, k: nat)
    requires 0 < k <= |s|
    ensures |Picks(s, k)| > 0 && Picks(s, k)[0] == s
    decreases |s|, 0, k
  {
    if k == 1 {
      var rest := Without(s, 0);
      assert rest == s[1..];
      PermutationsFirst(rest);
      assert Picks(s, 0) == [];
      assert Prepend(s[0], Permutations(rest))[0] == [s[0]] + s[1..] == s;
    } else {
      PicksFirst(s, k - 1);
    }
  }

  /** Rearranging keeps the length. */
  lemma PermutationLength<T>(s: seq<T>, p: seq<T>)
    requires p in Permutations(s)
    ensures |p| == |s|
  {
    PermutationsSound(s);
    assert |p| == |multiset(p)| == |multiset(s)| == |s|;
  }
}
