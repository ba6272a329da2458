/** Ranking of scored entries: a stable sort by descending score, as
    `Array.prototype.sort` (section 23.1.3.30 of ECMA-262, 2023 edition) does
    with the comparator `(a, b) => b.score - a.score`, followed by taking a
    prefix. */
module Ranking {
  import opened JsValues

  /** One candidate text with its similarity score. */
  datatype Match = Match(text: Value, score: real)

  /** Scores never increase along the sequence: no pair is out of order for
      the comparator `b.score - a.score`. */
  predicate Descending(ms: seq<Match>) {
    forall i, j :: 0 <= i < j < |ms| ==> ms[i].score >= ms[j].score
  }

  /** The entries scoring exactly `s`, in their order in `ms`. A sort is
      stable exactly when it leaves each of these subsequences unchanged. */
  function WithScore(ms: seq<Match>, s: real): (r: seq<Match>)
    ensures |r| <= |ms|
  {
    if |ms| == 0 then []
    else if ms[0].score == s then [ms[0]] + WithScore(ms[1..], s)
    else WithScore(ms[1..], s)
  }

  /** An entry is selected exactly when it occurs and scores `s`. */
  lemma {:induction false} WithScoreMembers(ms: seq<Match>, s: real, x: Match)
    ensures x in WithScore(ms, s) <==> x in ms && x.score == s
  {
    if |ms| > 0 {
      WithScoreMembers(ms[1..], s, x);
      assert ms == [ms[0]] + ms[1..];
    }
  }

  /** The entries of a one-element sequence scoring `s`. */
  function Single(x: Match, s: real): seq<Match> {
    if x.score == s then [x] else []
  }

  lemma WithScoreCons(x: Match, rest: seq<Match>, s: real)
    ensures WithScore([x] + rest, s) == Single(x, s) + WithScore(rest, s)
  {
    assert ([x] + rest)[0] == x;
    assert ([x] + rest)[1..] == rest;
  }

  lemma {:induction false} WithScoreConcat(a: seq<Match>, b: seq<Match>, s: real)
    ensures WithScore(a + b, s) == WithScore(a, s) + WithScore(b, s)
  {
    if |a| == 0 {
      assert a + b == b;
    } else {
      assert (a + b)[0] == a[0];
      assert (a + b)[1..] == a[1..] + b;
      WithScoreConcat(a[1..], b, s);
    }
  }

  /** Places `m` into a descending sequence after every entry scoring
      strictly more and before every entry scoring the same or less. */
  function Insert(m: Match, ms: seq<Match>): (r: seq<Match>)
    requires Descending(ms)
    ensures Descending(r)
    ensures multiset(r) == multiset(ms) + multiset{m}
    ensures forall s :: WithScore(r, s) == WithScore([m] + ms, s)
  {
    if |ms| == 0 || m.score >= ms[0].score then
      assert forall j :: 0 <= j < |ms| ==> m.score >= ms[j].score;
      [m] + ms
    else
      var rest := Insert(m, ms[1..]);
      InsertBehindHigher(m, ms, rest);
      assert ms == [ms[0]] + ms[1..];
      [ms[0]] + rest
  }

  /** The bookkeeping for an entry that goes behind a strictly higher head. */
  lemma InsertBehindHigher(m: Match, ms: seq<Match>, rest: seq<Match>)
    requires |ms| > 0 && Descending(ms) && m.score < ms[0].score
    requires Descending(rest)
    requires multiset(rest) == multiset(ms[1..]) + multiset{m}
    requires forall s :: WithScore(rest, s) == WithScore([m] + ms[1..], s)
    ensures Descending([ms[0]] + rest)
    ensures forall s :: WithScore([ms[0]] + rest, s) == WithScore([m] + ms, s)
  {
    HigherHeadStaysDescending(m, ms, rest);
    forall s
      ensures WithScore([ms[0]] + rest, s) == WithScore([m] + ms, s)
    {
      WithScoreCons(ms[0], rest, s);
      WithScoreCons(m, ms[1..], s);
      WithScoreCons(m, ms, s);
      WithScoreCons(ms[0], ms[1..], s);
      assert [ms[0]] + ms[1..] == ms;
    }
  }

  lemma HigherHeadStaysDescending(m: Match, ms: seq<Match>, rest: seq<Match>)
    requires |ms| > 0 && Descending(ms) && m.score < ms[0].score
    requires Descending(rest)
    requires multiset(rest) == multiset(ms[1..]) + multiset{m}
    ensures Descending([ms[0]] + rest)
  {
    forall j | 0 <= j < |rest|
      ensures ms[0].score >= rest[j].score
    {
      assert rest[j] in multiset(rest);
      assert rest[j] == m || rest[j] in multiset(ms[1..]);
      if rest[j] != m {
        assert rest[j] in ms[1..];
      }
    }
  }

  /** The stable descending sort of `ms`. */
  function SortByScore(ms: seq<Match>): (r: seq<Match>)
    ensures Descending(r)
    ensures multiset(r) == multiset(ms)
    ensures |r| == |ms|
    ensures forall s :: WithScore(r, s) == WithScore(ms, s)
  {
    if |ms| == 0 then []
    else
      var r := Insert(ms[0], SortByScore(ms[1..]));
      assert ms == [ms[0]] + ms[1..];
      assert |r| == |multiset(r)|;
      assert forall s :: WithScore(r, s) == WithScore(ms, s) by {
        forall s ensures WithScore(r, s) == WithScore(ms, s) {
          WithScoreCons(ms[0], SortByScore(ms[1..]), s);
          WithScoreCons(ms[0], ms[1..], s);
        }
      }
      r
  }

  /** Descending order plus stability determine the result completely: two
      descending sequences with the same entries of every score are equal.
      Any stable sort with this comparator, whatever its algorithm, returns
      what `SortByScore` returns. */
  lemma {:induction false} StableSortIsUnique(a: seq<Match>, b: seq<Match>)
    requires Descending(a) && Descending(b)
    requires forall s :: WithScore(a, s) == WithScore(b, s)
    ensures a == b
  {
    if |a| == 0 || |b| == 0 {
      if |a| > 0 {
        assert a == [a[0]] + a[1..];
        WithScoreCons(a[0], a[1..], a[0].score);
      } else if |b| > 0 {
        assert b == [b[0]] + b[1..];
        WithScoreCons(b[0], b[1..], b[0].score);
      }
    } else {
      var sa, sb := a[0].score, b[0].score;
      assert a == [a[0]] + a[1..];
      assert b == [b[0]] + b[1..];
      WithScoreCons(a[0], a[1..], sa);
      WithScoreCons(b[0], b[1..], sb);
      WithScoreMembers(a, sb, b[0]);
      WithScoreMembers(b, sa, a[0]);
      assert sa == sb;
      WithScoreCons(b[0], b[1..], sa);
      assert WithScore(a, sa) == WithScore(b, sa);
      assert WithScore(a, sa)[0] == a[0];
      assert WithScore(b, sa)[0] == b[0];
      forall s
        ensures WithScore(a[1..], s) == WithScore(b[1..], s)
      {
        WithScoreCons(a[0], a[1..], s);
        WithScoreCons(b[0], b[1..], s);
        var k := |Single(a[0], s)|;
        assert WithScore(a, s) == WithScore(b, s);
        assert WithScore(a[1..], s) == WithScore(a, s)[k..];
        assert WithScore(b[1..], s) == WithScore(b, s)[k..];
      }
      StableSortIsUnique(a[1..], b[1..]);
      assert a == [a[0]] + a[1..];
      assert b == [b[0]] + b[1..];
    }
  }

  /** The smaller of two naturals. */
  function Min(a: nat, b: nat): nat {
    if a < b then a else b
  }

  /** The `k` best-scoring entries of `ms`, best first; among equal scores
      the earlier entry of `ms` wins. */
  function TopK(ms: seq<Match>, k: nat): (r: seq<Match>)
    ensures |r| == Min(k, |ms|)
    ensures Descending(r)
    ensures multiset(r) <= multiset(ms)
    ensures forall m, i :: m in multiset(ms) - multiset(r) && 0 <= i < |r| ==> m.score <= r[i].score
    ensures forall s :: |WithScore(r, s)| <= |WithScore(ms, s)|
                        && WithScore(r, s) == WithScore(ms, s)[..|WithScore(r, s)|]
  {
    var sorted := SortByScore(ms);
    var n := Min(k, |sorted|);
    PrefixOfDescending(sorted, n);
    sorted[..n]
  }

  /** A prefix of a descending sequence is descending, holds part of its
      entries, scores no lower than anything after it, and holds the first
      entries of every score. */
  lemma PrefixOfDescending(sorted: seq<Match>, n: nat)
    requires Descending(sorted) && n <= |sorted|
    ensures Descending(sorted[..n])
    ensures multiset(sorted[..n]) <= multiset(sorted)
    ensures forall m, i :: m in multiset(sorted) - multiset(sorted[..n]) && 0 <= i < n ==> m.score <= sorted[i].score
    ensures forall s :: |WithScore(sorted[..n], s)| <= |WithScore(sorted, s)|
                        && WithScore(sorted[..n], s) == WithScore(sorted, s)[..|WithScore(sorted[..n], s)|]
  {
    var r := sorted[..n];
    assert sorted == r + sorted[n..];
    assert multiset(sorted) == multiset(r) + multiset(sorted[n..]);
    forall m, i | m in multiset(sorted) - multiset(r) && 0 <= i < n
      ensures m.score <= sorted[i].score
    {
      assert m in multiset(sorted[n..]);
      var j :| 0 <= j < |sorted[n..]| && sorted[n..][j] == m;
      assert sorted[n + j] == m;
    }
    forall s
      ensures |WithScore(r, s)| <= |WithScore(sorted, s)|
      ensures WithScore(r, s) == WithScore(sorted, s)[..|WithScore(r, s)|]
    {
      WithScoreConcat(r, sorted[n..], s);
    }
  }

  /** Example: scores 1, 0 and 0.707 rank as first, third,
      second, and the top two are the first and the third. */
  lemma ExampleRanking(a: Value, b: Value, c: Value)
    ensures TopK([Match(a, 1.0), Match(b, 0.0), Match(c, 0.707)], 2) == [Match(a, 1.0), Match(c, 0.707)]
  {
    SortSwapsLastTwo(Match(a, 1.0), Match(b, 0.0), Match(c, 0.707));
  }

  /** Any descending reordering that keeps every equal-score subsequence
      is the sorted sequence. */
  lemma SortedIsOnlyStableOrder(ms: seq<Match>, r: seq<Match>)
    requires Descending(r)
    requires forall s :: WithScore(r, s) == WithScore(ms, s)
    ensures SortByScore(ms) == r
  {
    StableSortIsUnique(SortByScore(ms), r);
  }

  /** Three matches whose last two are out of order sort by swapping them. */
  lemma SortSwapsLastTwo(x: Match, y: Match, z: Match)
    requires x.score >= z.score > y.score
    ensures SortByScore([x, y, z]) == [x, z, y]
  {
    SwapLastTwo(x, y, z);
    SortedIsOnlyStableOrder([x, y, z], [x, z, y]);
  }

  /** Swapping two neighbours with different scores keeps every
      equal-score subsequence. */
  lemma SwapLastTwo(x: Match, y: Match, z: Match)
    requires y.score != z.score
    ensures forall s :: WithScore([x, y, z], s) == WithScore([x, z, y], s)
  {
    forall s
      ensures WithScore([x, y, z], s) == WithScore([x, z, y], s)
    {
      assert [x, y, z] == [x] + ([y] + [z]);
      assert [x, z, y] == [x] + ([z] + [y]);
      WithScoreCons(x, [y] + [z], s);
      WithScoreCons(x, [z] + [y], s);
      WithScoreCons(y, [z], s);
      WithScoreCons(z, [y], s);
      WithScoreCons(y, [], s);
      WithScoreCons(z, [], s);
      assert [y] + [] == [y] && [z] + [] == [z];
    }
  }
}
