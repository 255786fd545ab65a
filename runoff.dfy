/** main.py, runoff mode: after a first round, every ballot is cut down, in
    place, to the candidates among the first `runoff_elections` of the
    first-round order `result`, keeping the voter's own order. */
module Runoff {
  import opened Names

  /** `result[:r]` for a bound `r >= 0`. */
  function Head(result: seq<Candidate>, r: nat): (h: seq<Candidate>)
    ensures |h| == if r < |result| then r else |result|
    ensures h <= result
  {
    if r < |result| then result[..r] else result
  }

  /** The ballot with every candidate outside `top` dropped. */
  function KeepOnly(ballot: Ballot, top: seq<Candidate>): (r: Ballot)
    ensures |r| <= |ballot|
    ensures forall x :: x in r <==> x in ballot && x in top
  {
    if ballot == [] then []
    else
      var prev := KeepOnly(ballot[..|ballot| - 1], top);
      var last := ballot[|ballot| - 1];
      assert forall x :: x in ballot <==> x in ballot[..|ballot| - 1] || x == last;
      if last in top then prev + [last] else prev
  }

  /** `s` is `t` with some elements left out, the rest in the same order. */
  predicate SubsequenceOf(s: seq<Candidate>, t: seq<Candidate>)
    decreases |t|
  {
    if s == [] then true
    else if t == [] then false
    else if s[|s| - 1] == t[|t| - 1] then SubsequenceOf(s[..|s| - 1], t[..|t| - 1])
    else SubsequenceOf(s, t[..|t| - 1])
  }

  /** A rewritten ballot keeps the voter's relative order of the candidates it keeps. */
  lemma {:induction false} KeepOnlySubsequence(ballot: Ballot, top: seq<Candidate>)
    ensures SubsequenceOf(KeepOnly(ballot, top), ballot)
  {
    if ballot != [] {
      var init := ballot[..|ballot| - 1];
      KeepOnlySubsequence(init, top);
      var prev := KeepOnly(init, top);
      if ballot[|ballot| - 1] in top {
        assert (prev + [ballot[|ballot| - 1]])[..|prev|] == prev;
      } else if prev != [] {
        assert prev[|prev| - 1] in init;
        assert prev[|prev| - 1] != ballot[|ballot| - 1];
      }
    }
  }

  /** Filtering a filtered ballot again changes nothing. */
  lemma {:induction false} KeepOnlyIdempotent(ballot: Ballot, top: seq<Candidate>)
    ensures KeepOnly(KeepOnly(ballot, top), top) == KeepOnly(ballot, top)
  {
    if ballot != [] {
      var init := ballot[..|ballot| - 1];
      KeepOnlyIdempotent(init, top);
      var prev := KeepOnly(init, top);
      var last := ballot[|ballot| - 1];
      if last in top {
        assert (prev + [last])[..|prev|] == prev;
      }
    }
  }

  /** A ballot all of whose candidates are kept is left whole. */
  lemma {:induction false} KeepOnlyAll(ballot: Ballot, top: seq<Candidate>)
    requires forall x :: x in ballot ==> x in top
    ensures KeepOnly(ballot, top) == ballot
  {
    if ballot != [] {
      var init := ballot[..|ballot| - 1];
      KeepOnlyAll(init, top);
      assert init + [ballot[|ballot| - 1]] == ballot;
    }
  }

  /** On a ballot without repeats, the rewritten length is the number of
      distinct candidates the ballot shares with `top`. */
  lemma {:induction false} KeepOnlyCount(ballot: Ballot, top: seq<Candidate>)
    requires Distinct(ballot)
    ensures |KeepOnly(ballot, top)| == |set x | x in ballot && x in top|
  {
    if ballot == [] {
      assert (set x | x in ballot && x in top) == {};
    } else {
      var init := ballot[..|ballot| - 1];
      var last := ballot[|ballot| - 1];
      KeepOnlyCount(init, top);
      var before := set x | x in init && x in top;
      var after := set x | x in ballot && x in top;
      assert last !in init;
      assert forall x :: x in ballot <==> x in init || x == last;
      if last in top {
        assert after == before + {last};
      } else {
        assert after == before;
      }
    }
  }

  /** When the ballot and `result` both list every candidate exactly once,
      the rewritten ballot has `min(R, m)` candidates for `m` candidates. */
  lemma KeepOnlyLength(ballot: Ballot, result: seq<Candidate>, r: nat)
    requires Distinct(result) && multiset(ballot) == multiset(result)
    ensures |KeepOnly(ballot, Head(result, r))| == if r < |result| then r else |result|
  {
    var top := Head(result, r);
    assert forall x :: x in top ==> x in result;
    assert forall x :: x in ballot <==> x in multiset(result);
    DistinctPermutation(result, ballot);
    assert Distinct(top);
    KeepOnlyCount(ballot, top);
    KeepOnlyCount(top, top);
    KeepOnlyAll(top, top);
    assert (set x | x in ballot && x in top) == (set x | x in top && x in top);
  }

  /** One step of the loop: writing the filtered current row at the first
      row equal to it leaves the rows before `i + 1` filtered and the rest
      as they were. */
  lemma WriteBackFiltered(rows: seq<Ballot>, start: seq<Ballot>, top: seq<Candidate>, i: nat, index: nat)
    requires |rows| == |start| && i < |rows|
    requires forall v :: 0 <= v < i ==> rows[v] == KeepOnly(start[v], top)
    requires forall v :: i <= v < |rows| ==> rows[v] == start[v]
    requires index < |rows| && rows[index] == rows[i] && rows[i] !in rows[..index]
    ensures index <= i
    ensures var next := rows[index := KeepOnly(rows[i], top)];
      (forall v :: 0 <= v <= i ==> next[v] == KeepOnly(start[v], top))
      && (forall v :: i < v < |rows| ==> next[v] == start[v])
  {
    if index < i {
      KeepOnlyIdempotent(start[index], top);
    }
  }

  /** One turn of the inner loop: filtering one more candidate of the ballot. */
  lemma KeepOnlyStep(ballot: Ballot, top: seq<Candidate>, j: nat)
    requires j < |ballot|
    ensures KeepOnly(ballot[..j + 1], top)
      == if ballot[j] in top then KeepOnly(ballot[..j], top) + [ballot[j]] else KeepOnly(ballot[..j], top)
  {
    assert ballot[..j + 1][..j] == ballot[..j];
  }

  /** main.py's truncation loop, run only when `runoff_elections > 1`. Each
      ballot is filtered and written back at `system_preferences.index(pref)`,
      the first row equal to it: a row that was already filtered when it
      equals the current ballot, so the loop filters every row in place. */
  method TruncateBallots(sys: array<Ballot>, result: seq<Candidate>, runoffElections: int)
    modifies sys
    ensures runoffElections <= 1 ==> sys[..] == old(sys[..])
    ensures runoffElections > 1 ==>
      forall v :: 0 <= v < sys.Length ==> sys[v] == KeepOnly(old(sys[v]), Head(result, runoffElections))
  {
    if runoffElections > 1 {
      ghost var start := sys[..];
      var top := Head(result, runoffElections);
      for i := 0 to sys.Length
        invariant forall v :: 0 <= v < i ==> sys[v] == KeepOnly(start[v], top)
        invariant forall v :: i <= v < sys.Length ==> sys[v] == start[v]
      {
        var pref := sys[i];
        ghost var rows := sys[..];
        assert rows[i] == pref;
        assert forall v :: 0 <= v < i ==> rows[v] == KeepOnly(start[v], top);
        assert forall v :: i <= v < |rows| ==> rows[v] == start[v];
        var temp := [];
        for j := 0 to |pref|
          invariant temp == KeepOnly(pref[..j], top)
          invariant sys[..] == rows
        {
          KeepOnlyStep(pref, top, j);
          if pref[j] in top {
            temp := temp + [pref[j]];
          }
        }
        assert pref[..|pref|] == pref;
        var index := IndexOf(sys[..], pref);
        WriteBackFiltered(rows, start, top, i, index);
        sys[index] := temp;
      }
    }
  }
}
