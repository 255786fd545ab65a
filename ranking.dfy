/** The design every voting rule of the repository shares: give each candidate
    a score, sort the `(candidate, score)` items by the key `(-score, name)`
    and take the first item as the winner. */
module Ranking {
  import opened Names

  /** One `(candidate, score)` item of a Counter or of a scores dict. */
  datatype Tally = Tally(name: Candidate, score: int)

  /** The sort key `(-score, name)`: `t` may stand before `u`. Two items with
      the same key are the same item, so a stable and an unstable sort agree. */
  predicate Before(t: Tally, u: Tally)
  {
    t.score > u.score || (t.score == u.score && !NameLess(u.name, t.name))
  }

  predicate SortedByKey(s: seq<Tally>)
  {
    forall i, j :: 0 <= i < j < |s| ==> Before(s[i], s[j])
  }

  function NamesOf(items: seq<Tally>): (r: seq<Candidate>)
    ensures |r| == |items|
  {
    seq(|items|, i requires 0 <= i < |items| => items[i].name)
  }

  /** Score every key, keeping the keys' order: `scores.items()`. */
  function Scored(keys: seq<Candidate>, score: Candidate -> int): seq<Tally>
  {
    seq(|keys|, i requires 0 <= i < |keys| => Tally(keys[i], score(keys[i])))
  }

  /** `w` is one of `keys`, no key scores more, and every key scoring the
      same has a name that is not smaller. */
  predicate HighestThenSmallest(w: Candidate, keys: seq<Candidate>, score: Candidate -> int)
  {
    && w in keys
    && forall c :: c in keys ==> score(c) < score(w) || (score(c) == score(w) && !NameLess(c, w))
  }

  /** At most one candidate is the highest scorer with the smallest name:
      the winner is fixed by the scores alone, whatever code computes it. */
  lemma HighestThenSmallestUnique(w1: Candidate, w2: Candidate, keys: seq<Candidate>, score: Candidate -> int)
    requires HighestThenSmallest(w1, keys, score) && HighestThenSmallest(w2, keys, score)
    ensures w1 == w2
  {
    assert score(w1) == score(w2);
    NameLessTotal(w1, w2);
  }

  lemma BeforeReflexive(t: Tally)
    ensures Before(t, t)
  {
    NameLessIrreflexive(t.name);
  }

  lemma BeforeTotal(t: Tally, u: Tally)
    ensures Before(t, u) || Before(u, t)
  {
    NameLessAsymmetric(t.name, u.name);
  }

  lemma BeforeTransitive(t: Tally, u: Tally, w: Tally)
    requires Before(t, u) && Before(u, w)
    ensures Before(t, w)
  {
    if t.score == u.score == w.score && NameLess(w.name, t.name) {
      NameLessTotal(u.name, t.name);
      if NameLess(t.name, u.name) {
        NameLessTransitive(w.name, t.name, u.name);
      }
    }
  }

  lemma BeforeAntisymmetric(t: Tally, u: Tally)
    requires Before(t, u) && Before(u, t)
    ensures t == u
  {
    NameLessTotal(t.name, u.name);
  }

  function Insert(x: Tally, s: seq<Tally>): (r: seq<Tally>)
    ensures multiset(r) == multiset(s) + multiset{x}
  {
    if s == [] then [x]
    else if Before(x, s[0]) then [x] + s
    else
      assert s == [s[0]] + s[1..];
      [s[0]] + Insert(x, s[1..])
  }

  lemma {:induction false} InsertSorted(x: Tally, s: seq<Tally>)
    requires SortedByKey(s)
    ensures SortedByKey(Insert(x, s))
  {
    if s == [] {
    } else if Before(x, s[0]) {
      var r := Insert(x, s);
      forall i, j | 0 <= i < j < |r| ensures Before(r[i], r[j]) {
        if i == 0 && j > 1 {
          BeforeTransitive(x, s[0], s[j - 1]);
        }
      }
    } else {
      BeforeTotal(x, s[0]);
      var rest := Insert(x, s[1..]);
      InsertSorted(x, s[1..]);
      forall j | 0 <= j < |rest| ensures Before(s[0], rest[j]) {
        assert rest[j] in multiset(rest);
        if rest[j] != x {
          assert rest[j] in s[1..];
          var k :| 0 <= k < |s[1..]| && s[1..][k] == rest[j];
          assert s[k + 1] == rest[j];
        }
      }
    }
  }

  /** `sorted(items, key=lambda x: (-x[1], x[0]))`, as an insertion sort. */
  function Rank(items: seq<Tally>): (r: seq<Tally>)
    ensures multiset(r) == multiset(items)
    ensures SortedByKey(r)
  {
    if items == [] then []
    else
      var rest := Rank(items[1..]);
      InsertSorted(items[0], rest);
      assert items == [items[0]] + items[1..];
      Insert(items[0], rest)
  }

  /** The first ranked item is an input item and may stand before every input item. */
  lemma RankFirst(items: seq<Tally>)
    requires items != []
    ensures |Rank(items)| == |items|
    ensures Rank(items)[0] in items
    ensures forall u :: u in items ==> Before(Rank(items)[0], u)
  {
    var r := Rank(items);
    assert |r| == |multiset(r)| == |multiset(items)| == |items|;
    assert r[0] in multiset(items);
    forall u | u in items ensures Before(r[0], u) {
      assert u in multiset(r);
      var j :| 0 <= j < |r| && r[j] == u;
      if j == 0 {
        BeforeReflexive(u);
      }
    }
  }

  /** Two sorted orders of the same items start with the same item. */
  lemma SortedSameHead(a: seq<Tally>, b: seq<Tally>)
    requires SortedByKey(a) && SortedByKey(b)
    requires multiset(a) == multiset(b) && a != []
    ensures b != [] && a[0] == b[0]
  {
    assert a[0] in multiset(b);
    var j :| 0 <= j < |b| && b[j] == a[0];
    assert b[0] in multiset(a);
    var i :| 0 <= i < |a| && a[i] == b[0];
    if i == 0 {
      BeforeReflexive(a[0]);
    }
    if j == 0 {
      BeforeReflexive(b[0]);
    }
    assert Before(a[0], a[i]) && Before(b[0], b[j]);
    BeforeAntisymmetric(a[0], b[0]);
  }

  lemma DropHead(a: seq<Tally>)
    requires SortedByKey(a) && a != []
    ensures SortedByKey(a[1..])
    ensures multiset(a[1..]) == multiset(a) - multiset{a[0]}
  {
    assert a == [a[0]] + a[1..];
  }

  /** A sorted order of a multiset of items is unique. */
  lemma {:induction false} SortedUnique(a: seq<Tally>, b: seq<Tally>)
    requires SortedByKey(a) && SortedByKey(b)
    requires multiset(a) == multiset(b)
    ensures a == b
    decreases |a|
  {
    assert |a| == |multiset(a)| == |multiset(b)| == |b|;
    if a != [] {
      SortedSameHead(a, b);
      DropHead(a);
      DropHead(b);
      SortedUnique(a[1..], b[1..]);
      assert a == [a[0]] + a[1..] && b == [b[0]] + b[1..];
    }
  }

  /** The order of the items before sorting does not matter: the order in
      which `Counter.most_common()` lists tied candidates cannot change the outcome. */
  lemma RankIgnoresInputOrder(a: seq<Tally>, b: seq<Tally>)
    requires multiset(a) == multiset(b)
    ensures Rank(a) == Rank(b)
  {
    SortedUnique(Rank(a), Rank(b));
  }

  /** Rank by score, then by name: the one design behind all four rules. */
  function RankBy(keys: seq<Candidate>, score: Candidate -> int): (r: seq<Tally>)
    ensures |r| == |keys|
    ensures SortedByKey(r)
    ensures forall i :: 0 <= i < |r| ==> r[i].name in keys && r[i].score == score(r[i].name)
    ensures forall c :: c in keys ==> Tally(c, score(c)) in r
    ensures keys != [] ==> HighestThenSmallest(r[0].name, keys, score)
    ensures Distinct(keys) ==> Distinct(NamesOf(r))
  {
    RankedScores(keys, score);
    Rank(Scored(keys, score))
  }

  /** The winner of `RankBy` over the distinct names of a list is the highest
      scorer of that list, ties to the smaller name. */
  lemma RankByWinner(keys: seq<Candidate>, all: seq<Candidate>, score: Candidate -> int)
    requires all != [] && forall c :: c in keys <==> c in all
    ensures |RankBy(keys, score)| > 0
    ensures HighestThenSmallest(RankBy(keys, score)[0].name, all, score)
  {
    assert all[0] in keys;
    var w := RankBy(keys, score)[0].name;
    assert HighestThenSmallest(w, keys, score);
    forall c | c in all ensures score(c) < score(w) || (score(c) == score(w) && !NameLess(c, w)) {
      assert c in keys;
    }
  }

  lemma RankedScores(keys: seq<Candidate>, score: Candidate -> int)
    ensures var r := Rank(Scored(keys, score));
      && |r| == |keys|
      && (forall i :: 0 <= i < |r| ==> r[i].name in keys && r[i].score == score(r[i].name))
      && (forall c :: c in keys ==> Tally(c, score(c)) in r)
      && (keys != [] ==> HighestThenSmallest(r[0].name, keys, score))
      && (Distinct(keys) ==> Distinct(NamesOf(r)))
  {
    RankedItems(keys, score);
    RankedCovers(keys, score);
    if keys != [] {
      RankedWinner(keys, score);
    }
    if Distinct(keys) {
      RankedDistinct(keys, score);
    }
  }

  lemma RankedDistinct(keys: seq<Candidate>, score: Candidate -> int)
    requires Distinct(keys)
    ensures Distinct(NamesOf(Rank(Scored(keys, score))))
  {
    var items := Scored(keys, score);
    var r := Rank(items);
    assert Distinct(items);
    DistinctPermutation(items, r);
    RankedItems(keys, score);
    var names := NamesOf(r);
    forall i, j | 0 <= i < j < |names| ensures names[i] != names[j] {
      assert r[i] != r[j];
      assert r[i].score == score(r[i].name) && r[j].score == score(r[j].name);
    }
  }

  lemma RankedItems(keys: seq<Candidate>, score: Candidate -> int)
    ensures var r := Rank(Scored(keys, score));
      && |r| == |keys|
      && (forall i :: 0 <= i < |r| ==> r[i].name in keys && r[i].score == score(r[i].name))
  {
    var items := Scored(keys, score);
    var r := Rank(items);
    assert |r| == |multiset(r)| == |multiset(items)| == |items|;
    forall i | 0 <= i < |r| ensures r[i].name in keys && r[i].score == score(r[i].name) {
      assert r[i] in multiset(items);
      var k :| 0 <= k < |items| && items[k] == r[i];
    }
  }

  lemma RankedCovers(keys: seq<Candidate>, score: Candidate -> int)
    ensures forall c :: c in keys ==> Tally(c, score(c)) in Rank(Scored(keys, score))
  {
    var items := Scored(keys, score);
    var r := Rank(items);
    forall c | c in keys ensures Tally(c, score(c)) in r {
      var k :| 0 <= k < |keys| && keys[k] == c;
      assert items[k] == Tally(c, score(c));
      assert items[k] in multiset(r);
    }
  }

  lemma RankedWinner(keys: seq<Candidate>, score: Candidate -> int)
    requires keys != []
    ensures HighestThenSmallest(Rank(Scored(keys, score))[0].name, keys, score)
  {
    var items := Scored(keys, score);
    RankFirst(items);
    RankedItems(keys, score);
    var w := Rank(items)[0];
    forall c | c in keys
      ensures score(c) < score(w.name) || (score(c) == score(w.name) && !NameLess(c, w.name))
    {
      var k :| 0 <= k < |keys| && keys[k] == c;
      assert items[k] in items;
    }
  }
}
