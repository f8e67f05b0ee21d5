/**
 * The leaderboard the browser derives from the score records the server
 * returns: sorted by descending score, then cut to the first five.
 */
module Leaderboard {

  /** One stored score; `createdAt` is the server's timestamp, carried along untouched. */
  datatype ScoreRecord = ScoreRecord(score: int, createdAt: string)

  /** Entries shown on the game-over screen. */
  const LeaderboardSize: nat := 5

  predicate SortedByScoreDesc(rs: seq<ScoreRecord>)
  {
    forall i, j :: 0 <= i < j < |rs| ==> rs[i].score >= rs[j].score
  }

  /**
   * Puts `r` in front of the first entry it does not score below, so that it
   * precedes entries with an equal score (insertion keeps the sort stable).
   */
  function Insert(r: ScoreRecord, rs: seq<ScoreRecord>): seq<ScoreRecord>
  {
    if rs == [] || r.score >= rs[0].score then [r] + rs else [rs[0]] + Insert(r, rs[1..])
  }

  lemma {:induction false} InsertSorted(r: ScoreRecord, rs: seq<ScoreRecord>)
    requires SortedByScoreDesc(rs)
    ensures |Insert(r, rs)| == |rs| + 1
    ensures forall x :: x in Insert(r, rs) ==> x == r || x in rs
    ensures SortedByScoreDesc(Insert(r, rs))
    ensures multiset(Insert(r, rs)) == multiset(rs) + multiset{r}
  {
    if rs != [] && r.score < rs[0].score {
      InsertSorted(r, rs[1..]);
      assert rs == [rs[0]] + rs[1..];
      assert forall x :: x in Insert(r, rs[1..]) ==> x.score <= rs[0].score;
    }
  }

  /** `scores.sort((a, b) => b.score - a.score)`: a stable sort by descending score. */
  function SortByScoreDesc(rs: seq<ScoreRecord>): seq<ScoreRecord>
  {
    if rs == [] then [] else Insert(rs[0], SortByScoreDesc(rs[1..]))
  }

  lemma {:induction false} SortSortsAndPermutes(rs: seq<ScoreRecord>)
    ensures |SortByScoreDesc(rs)| == |rs|
    ensures SortedByScoreDesc(SortByScoreDesc(rs))
    ensures multiset(SortByScoreDesc(rs)) == multiset(rs)
  {
    if rs != [] {
      SortSortsAndPermutes(rs[1..]);
      InsertSorted(rs[0], SortByScoreDesc(rs[1..]));
      assert rs == [rs[0]] + rs[1..];
    }
  }

  /** `.slice(0, 5)` of the sorted records. */
  function TopFive(rs: seq<ScoreRecord>): (top: seq<ScoreRecord>)
    ensures |top| == if |rs| < LeaderboardSize then |rs| else LeaderboardSize
    ensures SortedByScoreDesc(top)
    ensures multiset(top) <= multiset(rs)
    ensures forall x, y :: x in multiset(rs) - multiset(top) && y in top ==> x.score <= y.score
  {
    SortSortsAndPermutes(rs);
    var sorted := SortByScoreDesc(rs);
    var k := if |sorted| < LeaderboardSize then |sorted| else LeaderboardSize;
    assert sorted == sorted[..k] + sorted[k..];
    assert multiset(sorted) == multiset(sorted[..k]) + multiset(sorted[k..]);
    assert forall x :: x in multiset(sorted[k..]) ==> x in sorted[k..];
    sorted[..k]
  }

  // The records of the worked example below: scores 3, 9, 1, 9, 5, 2, stored in that order.
  const ExA := ScoreRecord(3, "t1")
  const ExB := ScoreRecord(9, "t2")
  const ExC := ScoreRecord(1, "t3")
  const ExD := ScoreRecord(9, "t4")
  const ExE := ScoreRecord(5, "t5")
  const ExF := ScoreRecord(2, "t6")

  lemma ExampleInsertOne()
    ensures Insert(ExC, [ExD, ExE, ExF]) == [ExD, ExE, ExF, ExC]
  {
    assert [ExE, ExF][1..] == [ExF];
    assert [ExD, ExE, ExF][1..] == [ExE, ExF];
    assert Insert(ExC, [ExF]) == [ExF, ExC];
    assert Insert(ExC, [ExE, ExF]) == [ExE, ExF, ExC];
  }

  lemma ExampleInsertThree()
    ensures Insert(ExA, [ExB, ExD, ExE, ExF, ExC]) == [ExB, ExD, ExE, ExA, ExF, ExC]
  {
    assert [ExE, ExF, ExC][1..] == [ExF, ExC];
    assert [ExD, ExE, ExF, ExC][1..] == [ExE, ExF, ExC];
    assert [ExB, ExD, ExE, ExF, ExC][1..] == [ExD, ExE, ExF, ExC];
    assert Insert(ExA, [ExF, ExC]) == [ExA, ExF, ExC];
    assert Insert(ExA, [ExE, ExF, ExC]) == [ExE, ExA, ExF, ExC];
    assert Insert(ExA, [ExD, ExE, ExF, ExC]) == [ExD, ExE, ExA, ExF, ExC];
  }

  lemma ExampleSort()
    ensures SortByScoreDesc([ExA, ExB, ExC, ExD, ExE, ExF]) == [ExB, ExD, ExE, ExA, ExF, ExC]
  {
    assert [ExE, ExF][1..] == [ExF];
    assert [ExD, ExE, ExF][1..] == [ExE, ExF];
    assert [ExC, ExD, ExE, ExF][1..] == [ExD, ExE, ExF];
    assert [ExB, ExC, ExD, ExE, ExF][1..] == [ExC, ExD, ExE, ExF];
    assert [ExA, ExB, ExC, ExD, ExE, ExF][1..] == [ExB, ExC, ExD, ExE, ExF];
    assert SortByScoreDesc([ExF]) == [ExF];
    assert SortByScoreDesc([ExE, ExF]) == [ExE, ExF];
    assert SortByScoreDesc([ExD, ExE, ExF]) == [ExD, ExE, ExF];
    ExampleInsertOne();
    assert SortByScoreDesc([ExC, ExD, ExE, ExF]) == [ExD, ExE, ExF, ExC];
    assert SortByScoreDesc([ExB, ExC, ExD, ExE, ExF]) == [ExB, ExD, ExE, ExF, ExC];
    ExampleInsertThree();
  }

  /**
   * Six records scoring 3, 9, 1, 9, 5 and 2 give the leaderboard of the
   * records scoring 9, 9, 5, 3 and 2; the two nines keep their input order.
   */
  lemma TopFiveExample()
    ensures TopFive([ExA, ExB, ExC, ExD, ExE, ExF]) == [ExB, ExD, ExE, ExA, ExF]
  {
    ExampleSort();
    assert [ExB, ExD, ExE, ExA, ExF, ExC][..5] == [ExB, ExD, ExE, ExA, ExF];
  }
}
