/** The top-ten table of the snake game: addScoreToLeaderboard
    (game.js:173-180) pushes an entry, sorts the table by descending score
    with a stable sort and pops the last entry once if the table has grown
    past ten. */
module Leaderboard {

  /** The table's cap (game.js:176). */
  const MaxEntries: int := 10

  /** One `{ name, score }` record of the table. */
  datatype Entry = Entry(name: string, score: int)

  predicate SortedDesc(s: seq<Entry>)
  {
    forall i, j :: 0 <= i < j < |s| ==> s[i].score >= s[j].score
  }

  /** The entries of `s` that score `k`, in their order in `s`. Stability of
      a sort means that it leaves every one of these runs as it was. */
  function WithScore(s: seq<Entry>, k: int): seq<Entry>
  {
    if s == [] then []
    else (if s[0].score == k then [s[0]] else []) + WithScore(s[1..], k)
  }

  lemma {:induction false} WithScoreAppend(a: seq<Entry>, b: seq<Entry>, k: int)
    ensures WithScore(a + b, k) == WithScore(a, k) + WithScore(b, k)
  {
    if a == [] {
      assert a + b == b;
    } else {
      assert (a + b)[1..] == a[1..] + b;
      WithScoreAppend(a[1..], b, k);
    }
  }

  /** A run of equal scores is empty when every entry scores less. */
  lemma {:induction false} WithScoreAbsent(s: seq<Entry>, k: int)
    requires forall i :: 0 <= i < |s| ==> s[i].score < k
    ensures WithScore(s, k) == []
  {
    if s != [] {
      WithScoreAbsent(s[1..], k);
    }
  }

  /** Puts `e` into `t` after every leading entry that scores at least as
      much: where a stable sort puts the element pushed last. */
  function Insert(t: seq<Entry>, e: Entry): (r: seq<Entry>)
    ensures |r| == |t| + 1
  {
    if t == [] then [e]
    else if t[0].score >= e.score then [t[0]] + Insert(t[1..], e)
    else [e] + t
  }

  lemma {:induction false} InsertPermutes(t: seq<Entry>, e: Entry)
    ensures multiset(Insert(t, e)) == multiset(t) + multiset{e}
  {
    if t != [] && t[0].score >= e.score {
      InsertPermutes(t[1..], e);
      assert t == [t[0]] + t[1..];
    }
  }

  lemma {:induction false} InsertSorted(t: seq<Entry>, e: Entry)
    requires SortedDesc(t)
    ensures SortedDesc(Insert(t, e))
  {
    if t != [] && t[0].score >= e.score {
      var rest := Insert(t[1..], e);
      InsertSorted(t[1..], e);
      InsertPermutes(t[1..], e);
      forall i | 0 <= i < |rest|
        ensures rest[i].score <= t[0].score
      {
        assert rest[i] in multiset(rest);
        assert rest[i] in multiset(t[1..]) || rest[i] == e;
      }
    }
  }

  /** Inserting into a sorted table appends `e` to the end of its run. */
  lemma {:induction false} InsertStable(t: seq<Entry>, e: Entry, k: int)
    requires SortedDesc(t)
    ensures WithScore(Insert(t, e), k) == WithScore(t, k) + WithScore([e], k)
  {
    if t == [] {
      assert [e] == [e] + [];
    } else if t[0].score >= e.score {
      InsertStable(t[1..], e, k);
      WithScoreAppend([t[0]], Insert(t[1..], e), k);
      WithScoreAppend([t[0]], t[1..], k);
      assert [t[0]] + t[1..] == t;
    } else {
      WithScoreAppend([e], t, k);
      if k == e.score {
        WithScoreAbsent(t, k);
      } else {
        assert WithScore([e], k) == [] by {
          assert [e][1..] == [];
        }
      }
    }
  }

  /** Inserting an entry that scores no more than any other appends it. */
  lemma {:induction false} InsertLowest(t: seq<Entry>, e: Entry)
    requires forall i :: 0 <= i < |t| ==> t[i].score >= e.score
    ensures Insert(t, e) == t + [e]
  {
    if t != [] {
      InsertLowest(t[1..], e);
      assert t == [t[0]] + t[1..];
    }
  }

  /** The sort of game.js:175, whose comparator orders entries by
      descending score. The built-in sort is stable, so it is modelled by an
      insertion sort that places each later entry after the earlier ones of
      the same score. */
  function SortByScore(s: seq<Entry>): (r: seq<Entry>)
    ensures |r| == |s|
  {
    if s == [] then []
    else Insert(SortByScore(s[..|s| - 1]), s[|s| - 1])
  }

  /** The sort is a permutation of the table it is given. */
  lemma {:induction false} SortByScorePermutes(s: seq<Entry>)
    ensures multiset(SortByScore(s)) == multiset(s)
  {
    if s != [] {
      var init, last := s[..|s| - 1], s[|s| - 1];
      SortByScorePermutes(init);
      InsertPermutes(SortByScore(init), last);
      assert s == init + [last];
    }
  }

  lemma {:induction false} SortByScoreSorted(s: seq<Entry>)
    ensures SortedDesc(SortByScore(s))
  {
    if s != [] {
      SortByScoreSorted(s[..|s| - 1]);
      InsertSorted(SortByScore(s[..|s| - 1]), s[|s| - 1]);
    }
  }

  /** The sort is stable: entries of equal score keep their relative order. */
  lemma {:induction false} SortByScoreStable(s: seq<Entry>, k: int)
    ensures WithScore(SortByScore(s), k) == WithScore(s, k)
  {
    if s != [] {
      var init, last := s[..|s| - 1], s[|s| - 1];
      SortByScoreStable(init, k);
      SortByScoreSorted(init);
      InsertStable(SortByScore(init), last, k);
      WithScoreAppend(init, [last], k);
      assert init + [last] == s;
    }
  }

  /** Sorting a table that is already in order changes nothing. */
  lemma {:induction false} SortByScoreOfSorted(s: seq<Entry>)
    requires SortedDesc(s)
    ensures SortByScore(s) == s
  {
    if s != [] {
      var init, last := s[..|s| - 1], s[|s| - 1];
      SortByScoreOfSorted(init);
      InsertLowest(init, last);
      assert init + [last] == s;
    }
  }

  /** addScoreToLeaderboard on the table's value: push, sort, pop once if
      the table is longer than the cap (game.js:174-178). */
  function Record(board: seq<Entry>, e: Entry): (r: seq<Entry>)
    ensures SortedDesc(r)
    ensures |r| == if |board| + 1 > MaxEntries then |board| else |board| + 1
    ensures |board| <= MaxEntries ==> |r| <= MaxEntries
  {
    var sorted := SortByScore(board + [e]);
    SortByScoreSorted(board + [e]);
    if |sorted| > MaxEntries then sorted[..|sorted| - 1] else sorted
  }

  /** The new table holds the old entries and the new one, except that when
      the cap is passed exactly one entry is dropped, and none scores less
      than it. */
  lemma RecordKeepsAllButLowest(board: seq<Entry>, e: Entry)
    ensures |board| + 1 <= MaxEntries ==> multiset(Record(board, e)) == multiset(board) + multiset{e}
    ensures |board| + 1 > MaxEntries ==>
              exists d :: d in multiset(board + [e]) &&
                multiset(Record(board, e)) + multiset{d} == multiset(board) + multiset{e} &&
                forall i :: 0 <= i < |Record(board, e)| ==> d.score <= Record(board, e)[i].score
  {
    var all := board + [e];
    var sorted := SortByScore(all);
    assert multiset(all) == multiset(board) + multiset{e};
    SortByScorePermutes(all);
    if |all| > MaxEntries {
      SortByScoreSorted(all);
      var d := sorted[|sorted| - 1];
      assert sorted == Record(board, e) + [d];
      assert d in multiset(sorted);
    }
  }

  /** Entries of equal score keep the order in which they were recorded:
      each run of the new table is a prefix of that run in the old table
      followed by the new entry. */
  lemma RecordStable(board: seq<Entry>, e: Entry, k: int)
    ensures WithScore(Record(board, e), k) <= WithScore(board + [e], k)
  {
    var all := board + [e];
    var sorted := SortByScore(all);
    SortByScoreStable(all, k);
    if |sorted| > MaxEntries {
      var last := sorted[|sorted| - 1];
      assert sorted == Record(board, e) + [last];
      WithScoreAppend(Record(board, e), [last], k);
    }
  }

  /** A score that only ties the lowest of ten entries is not admitted:
      the stable sort places it after them and the pop removes it. */
  lemma RecordTieAtCutoffRejected(board: seq<Entry>, e: Entry)
    requires SortedDesc(board) && |board| == MaxEntries
    requires e.score <= board[MaxEntries - 1].score
    ensures Record(board, e) == board
  {
    var init := board + [e];
    SortByScoreOfSorted(board);
    InsertLowest(board, e);
    assert init[..|init| - 1] == board;
    assert SortByScore(init) == board + [e];
  }

  /** On a table that is already in order, recording is inserting the new
      entry after every entry scoring at least as much, then truncating. */
  lemma RecordOnSorted(board: seq<Entry>, e: Entry)
    requires SortedDesc(board)
    ensures Record(board, e) ==
              var ins := Insert(board, e);
              if |ins| > MaxEntries then ins[..|ins| - 1] else ins
  {
    var all := board + [e];
    SortByScoreOfSorted(board);
    assert all[..|all| - 1] == board;
  }

  /** One recording into a table in order, computed by insertion. */
  lemma RecordStep(board: seq<Entry>, e: Entry, r: seq<Entry>)
    requires SortedDesc(board) && |board| < MaxEntries
    requires Insert(board, e) == r
    ensures Record(board, e) == r
  {
    RecordOnSorted(board, e);
  }

  /** Recording entries scoring 5, 9, 3 and 9 (say A, B, C and D) into an
      empty table gives B, D, A, C: the tie keeps the order of recording. */
  lemma RecordExample(a: Entry, b: Entry, c: Entry, d: Entry)
    requires a.score == 5 && b.score == 9 && c.score == 3 && d.score == 9
    ensures Record(Record(Record(Record([], a), b), c), d) == [b, d, a, c]
  {
    RecordStep([], a, [a]);
    RecordStep([a], b, [b, a]);
    assert [b, a][1..] == [a] && [a][1..] == [];
    assert Insert([a], c) == [a, c];
    RecordStep([b, a], c, [b, a, c]);
    assert [b, a, c][1..] == [a, c] && [a, c][1..] == [c];
    assert Insert([a, c], d) == [d, a, c];
    RecordStep([b, a, c], d, [b, d, a, c]);
  }
}
