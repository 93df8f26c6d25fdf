/**
 * Ranking of one similarity row: `sorted(enumerate(row), key=score, reverse=True)`.
 * Python's sort is stable also when reversed, so pairs of equal score keep the
 * ascending column order in which `enumerate` produced them.
 */
module Ranking {

  /** A similarity score. Only its order is used; no arithmetic is done on it. */
  type Score = real

  /** A (column index, score) pair, as `enumerate` yields it. */
  datatype Scored = Scored(index: nat, score: Score)

  /** `list(enumerate(row))`. */
  function Enumerate(row: seq<Score>): seq<Scored> {
    seq(|row|, j requires 0 <= j < |row| => Scored(j, row[j]))
  }

  /** Whether `a` comes before `b` in the ranking: higher score first, equal scores by ascending column. */
  predicate RanksBefore(a: Scored, b: Scored) {
    a.score > b.score || (a.score == b.score && a.index < b.index)
  }

  /** The scores never increase along `s`, and equal scores appear in ascending column order. */
  predicate IsRanked(s: seq<Scored>) {
    forall i, j :: 0 <= i < j < |s| ==> RanksBefore(s[i], s[j])
  }

  predicate IndicesAscend(s: seq<Scored>) {
    forall i, j :: 0 <= i < j < |s| ==> s[i].index < s[j].index
  }

  /** Places `x` into `t` ahead of the first element whose score it reaches. */
  function Insert(x: Scored, t: seq<Scored>): (r: seq<Scored>)
    ensures multiset(r) == multiset(t) + multiset{x}
  {
    if |t| == 0 || x.score >= t[0].score then
      [x] + t
    else
      assert t == [t[0]] + t[1..];
      [t[0]] + Insert(x, t[1..])
  }

  /** Inserting a pair that came before every element of a ranked sequence keeps it ranked. */
  lemma {:induction false} InsertKeepsRanked(x: Scored, t: seq<Scored>)
    requires IsRanked(t)
    requires forall k :: 0 <= k < |t| ==> x.index < t[k].index
    ensures IsRanked(Insert(x, t))
    decreases |t|
  {
    if |t| > 0 && x.score < t[0].score {
      var t0, rest := t[0], Insert(x, t[1..]);
      InsertKeepsRanked(x, t[1..]);
      forall j | 0 <= j < |rest| ensures RanksBefore(t0, rest[j]) {
        var e := rest[j];
        assert e in multiset(t[1..]) + multiset{x} by {
          assert e in multiset(rest);
        }
        if e != x {
          assert e in t[1..];
        }
      }
      assert Insert(x, t) == [t0] + rest;
    }
  }

  /**
   * The stable descending sort: the first element is inserted into the sorted
   * rest, ahead of every element of equal score.
   */
  function SortByScoreDesc(s: seq<Scored>): (r: seq<Scored>)
    ensures multiset(r) == multiset(s)
  {
    if |s| == 0 then
      []
    else
      assert s == [s[0]] + s[1..];
      Insert(s[0], SortByScoreDesc(s[1..]))
  }

  /** Sorting pairs whose columns ascend gives non-increasing scores with ties in ascending column order. */
  lemma {:induction false} SortRanks(s: seq<Scored>)
    requires IndicesAscend(s)
    ensures IsRanked(SortByScoreDesc(s))
    decreases |s|
  {
    if |s| > 0 {
      var rest := SortByScoreDesc(s[1..]);
      SortRanks(s[1..]);
      forall k | 0 <= k < |rest| ensures s[0].index < rest[k].index {
        assert rest[k] in multiset(s[1..]) by {
          assert rest[k] in multiset(rest);
        }
        assert rest[k] in s[1..];
      }
      InsertKeepsRanked(s[0], rest);
    }
  }

  /** The ranking of a row, as `find_similar_movies` returns it on success. */
  function RankRow(row: seq<Score>): (r: seq<Scored>)
    ensures multiset(r) == multiset(Enumerate(row))
    ensures IsRanked(r)
  {
    SortRanks(Enumerate(row));
    SortByScoreDesc(Enumerate(row))
  }

  /**
   * The ranking is a permutation of `enumerate(row)`, sorted by non-increasing
   * score with ties in ascending column order; each column appears exactly once,
   * paired with its own score.
   */
  lemma RankRowIsRankedPermutation(row: seq<Score>)
    ensures multiset(RankRow(row)) == multiset(Enumerate(row))
    ensures |RankRow(row)| == |row|
    ensures IsRanked(RankRow(row))
    ensures forall p :: 0 <= p < |RankRow(row)| ==>
              RankRow(row)[p].index < |row| && RankRow(row)[p].score == row[RankRow(row)[p].index]
    ensures forall j :: 0 <= j < |row| ==> Scored(j, row[j]) in RankRow(row)
    ensures forall p, q :: 0 <= p < q < |RankRow(row)| ==> RankRow(row)[p].index != RankRow(row)[q].index
  {
    var e := Enumerate(row);
    var r := RankRow(row);
    SortRanks(e);
    assert |r| == |multiset(r)| == |multiset(e)| == |e|;
    forall p | 0 <= p < |r| ensures r[p].index < |row| && r[p].score == row[r[p].index] {
      assert r[p] in multiset(r);
      assert r[p] in e;
    }
    forall j | 0 <= j < |row| ensures Scored(j, row[j]) in r {
      assert e[j] == Scored(j, row[j]);
      assert e[j] in multiset(e);
    }
  }

  /**
   * Two rankings of the same pairs are the same sequence: the ranked order is a
   * strict total order on the pairs, so the result of the sort is determined by
   * its specification alone.
   */
  lemma {:induction false} RankedIsUnique(a: seq<Scored>, b: seq<Scored>)
    requires IsRanked(a) && IsRanked(b)
    requires multiset(a) == multiset(b)
    ensures a == b
    decreases |a|
  {
    assert |a| == |multiset(a)| == |multiset(b)| == |b|;
    if |a| > 0 {
      RankedHeadsAgree(a, b);
      assert a == [a[0]] + a[1..] && b == [b[0]] + b[1..];
      assert multiset(a[1..]) == multiset(a) - multiset{a[0]};
      assert multiset(b[1..]) == multiset(b) - multiset{b[0]};
      RankedIsUnique(a[1..], b[1..]);
    }
  }

  /** Each head ranks before every other element of its sequence, so the heads of two rankings of the same pairs coincide. */
  lemma RankedHeadsAgree(a: seq<Scored>, b: seq<Scored>)
    requires IsRanked(a) && IsRanked(b)
    requires multiset(a) == multiset(b) && |a| > 0 && |b| > 0
    ensures a[0] == b[0]
  {
    var a0, b0 := a[0], b[0];
    assert a0 in multiset(b) && b0 in multiset(a);
    var k :| 0 <= k < |b| && b[k] == a0;
    assert k == 0 || RanksBefore(b0, a0);
    var m :| 0 <= m < |a| && a[m] == b0;
    assert m == 0 || RanksBefore(a0, b0);
  }

  /**
   * The first ranked pair holds the highest score of the row, at the lowest
   * column among those that reach it.
   */
  lemma FirstRankedIsBest(row: seq<Score>)
    requires |row| > 0
    ensures forall j :: 0 <= j < |row| ==> row[j] <= RankRow(row)[0].score
    ensures forall j :: 0 <= j < |row| && row[j] == RankRow(row)[0].score ==> RankRow(row)[0].index <= j
  {
    RankRowIsRankedPermutation(row);
    var r := RankRow(row);
    forall j | 0 <= j < |row| ensures row[j] <= r[0].score && (row[j] == r[0].score ==> r[0].index <= j) {
      var p :| 0 <= p < |r| && r[p] == Scored(j, row[j]);
      if p > 0 {
        assert RanksBefore(r[0], r[p]);
      }
    }
  }
}
