/**
 * The high-score table: entries kept sorted by score, highest first, and
 * written out ten at a time. The score file is replaced by the entries it
 * holds, and the clock by the date string passed in.
 */
module Scores {
  import opened Wrappers

  datatype HighScore = HighScore(playerName: string, score: int, date: string)

  /** Scores never increase along the table. */
  predicate SortedDesc(s: seq<HighScore>) {
    forall i, j | 0 <= i < j < |s| :: s[i].score >= s[j].score
  }

  /** `x` inserted in front of the first entry scoring less than it. */
  function InsertDesc(x: HighScore, s: seq<HighScore>): (r: seq<HighScore>)
    ensures |r| == |s| + 1
    ensures multiset(r) == multiset(s) + multiset{x}
  {
    if |s| == 0 || s[0].score < x.score then [x] + s
    else
      assert s == [s[0]] + s[1..];
      [s[0]] + InsertDesc(x, s[1..])
  }

  /** Inserting into a sorted table keeps it sorted. */
  lemma {:induction false} InsertKeepsSorted(x: HighScore, s: seq<HighScore>)
    requires SortedDesc(s)
    ensures SortedDesc(InsertDesc(x, s))
  {
    if |s| > 0 && s[0].score >= x.score {
      InsertKeepsSorted(x, s[1..]);
      var r := InsertDesc(x, s);
      var t := InsertDesc(x, s[1..]);
      assert r == [s[0]] + t;
      forall j | 1 <= j < |r|
        ensures r[0].score >= r[j].score
      {
        assert r[j] in multiset(t);
        assert r[j] in multiset(s[1..]) + multiset{x};
        if r[j] in multiset(s[1..]) {
          var k :| 0 <= k < |s[1..]| && s[1..][k] == r[j];
          assert s[k + 1] == r[j];
        }
      }
    }
  }

  class GameScore {
    var highScores: seq<HighScore>

    /**
     * `loadScores` as run by the constructor: the stored entries, if the file
     * could be opened, sorted by score.
     */
    constructor (stored: Option<seq<HighScore>>)
      ensures SortedDesc(highScores)
      ensures stored.None? ==> highScores == []
      ensures stored.Some? ==> multiset(highScores) == multiset(stored.value)
    {
      highScores := [];
      new;
      if stored.Some? {
        highScores := stored.value;
        SortByScore();
      }
    }

    /** The `std::sort` by descending score: a sorted permutation of the table. */
    method SortByScore()
      modifies this
      ensures SortedDesc(highScores)
      ensures multiset(highScores) == multiset(old(highScores))
      ensures |highScores| == |old(highScores)|
    {
      var table := highScores;
      var sorted: seq<HighScore> := [];
      var i := 0;
      while i < |table|
        invariant 0 <= i <= |table|
        invariant SortedDesc(sorted)
        invariant multiset(sorted) == multiset(table[..i]) && |sorted| == i
      {
        InsertKeepsSorted(table[i], sorted);
        assert table[..i + 1] == table[..i] + [table[i]];
        sorted := InsertDesc(table[i], sorted);
        i := i + 1;
      }
      assert table[..i] == table;
      highScores := sorted;
    }

    /**
     * `addScore`: appends the new entry, sorts, and saves; the result is the
     * list of entries written to the score file.
     */
    method AddScore(name: string, score: int, date: string) returns (written: seq<HighScore>)
      modifies this
      ensures |highScores| == |old(highScores)| + 1
      ensures multiset(highScores) == multiset(old(highScores)) + multiset{HighScore(name, score, date)}
      ensures SortedDesc(highScores)
      ensures written == highScores[..Min(10, |highScores|)]
    {
      highScores := highScores + [HighScore(name, score, date)];
      SortByScore();
      written := SaveScores();
    }

    /** `saveScores`: the first ten entries, or all of them when there are fewer. */
    method SaveScores() returns (written: seq<HighScore>)
      ensures written == highScores[..Min(10, |highScores|)]
      ensures |written| <= 10
    {
      var count := Min(10, |highScores|);
      written := [];
      var i := 0;
      while i < count
        invariant 0 <= i <= count
        invariant written == highScores[..i]
      {
        written := written + [highScores[i]];
        i := i + 1;
      }
    }

    /** `getTopScores`: the leading `count` entries, or the whole table when it is shorter. */
    function GetTopScores(count: int): (top: seq<HighScore>)
      requires count >= 0
      reads this
      ensures |top| == Min(count, |highScores|)
      ensures top == highScores[..|top|]
    {
      highScores[..Min(count, |highScores|)]
    }
  }

  function Min(a: int, b: int): int {
    if a < b then a else b
  }

  /** In a sorted table the top entries score at least as much as every entry after them. */
  lemma TopScoresAreHighest(table: seq<HighScore>, count: nat)
    requires SortedDesc(table)
    ensures forall i, j | 0 <= i < Min(count, |table|) <= j < |table| :: table[i].score >= table[j].score
  {
  }
}
