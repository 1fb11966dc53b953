/**
 * Scored chunks and the ordering the retrieval core puts them in:
 * `Array.prototype.sort` with the comparator `(a, b) => b.score - a.score`,
 * which JavaScript performs as a stable sort.  The model sorts by insertion,
 * both as a function on sequences and in place on an array.
 */
module Ranking {

  /** One candidate chunk: its text, its score, where it came from. */
  datatype ScoredChunk = ScoredChunk(chunk: string, score: nat, fileName: string, index: nat)

  /** Non-increasing by score. */
  predicate SortedByScore(s: seq<ScoredChunk>) {
    forall i, j :: 0 <= i < j < |s| ==> s[i].score >= s[j].score
  }

  /** Places `x` after every trailing element whose score is at least its own. */
  function Insert(t: seq<ScoredChunk>, x: ScoredChunk): seq<ScoredChunk>
    decreases |t|
  {
    if t == [] || t[|t| - 1].score >= x.score then t + [x]
    else Insert(t[..|t| - 1], x) + [t[|t| - 1]]
  }

  function SortByScore(s: seq<ScoredChunk>): seq<ScoredChunk>
    decreases |s|
  {
    if s == [] then [] else Insert(SortByScore(s[..|s| - 1]), s[|s| - 1])
  }

  /** `s.slice(0, n)`. */
  function Take(s: seq<ScoredChunk>, n: nat): (r: seq<ScoredChunk>)
    ensures |r| == if n < |s| then n else |s|
    ensures r == s[..|r|]
  {
    s[..if n < |s| then n else |s|]
  }

  function Filter(s: seq<ScoredChunk>, p: ScoredChunk -> bool): seq<ScoredChunk>
    decreases |s|
  {
    if s == [] then [] else (if p(s[0]) then [s[0]] else []) + Filter(s[1..], p)
  }

  function ScoreIs(v: nat): ScoredChunk -> bool {
    (c: ScoredChunk) => c.score == v
  }

  // -------------------------------------------------------- the array sort

  /** `a.sort((a, b) => b.score - a.score)`, as an insertion sort. */
  method SortInPlace(a: array<ScoredChunk>)
    modifies a
    ensures a[..] == SortByScore(old(a[..]))
  {
    ghost var s := a[..];
    var i := 0;
    while i < a.Length
      invariant 0 <= i <= a.Length
      invariant a[..i] == SortByScore(s[..i])
      invariant a[i..] == s[i..]
    {
      ghost var before := a[..];
      assert before[i] == s[i];
      InsertInPlace(a, i);
      assert s[..i + 1][..i] == s[..i];
      assert SortByScore(s[..i + 1]) == Insert(SortByScore(s[..i]), s[i]);
      assert a[i + 1..] == before[i + 1..];
      i := i + 1;
    }
    assert s[..a.Length] == s;
    assert a[..a.Length] == a[..];
  }

  /** One pass of the insertion sort: `a[i]` moves left past the smaller scores before it. */
  method InsertInPlace(a: array<ScoredChunk>, i: nat)
    requires i < a.Length
    modifies a
    ensures a[..i + 1] == Insert(old(a[..i]), old(a[i]))
    ensures a[i + 1..] == old(a[i + 1..])
  {
    var x := a[i];
    ghost var s := a[..];
    var j := i;
    while j > 0 && a[j - 1].score < x.score
      invariant 0 <= j <= i
      invariant forall k :: 0 <= k < j ==> a[k] == s[k]
      invariant forall k :: j < k <= i ==> a[k] == s[k - 1]
      invariant forall k :: i < k < a.Length ==> a[k] == s[k]
      invariant forall k :: j <= k < i ==> s[k].score < x.score
    {
      a[j] := a[j - 1];
      j := j - 1;
    }
    a[j] := x;
    ShiftedIsInsert(s, a[..], i, j);
  }

  /**
   * The array after the shifting loop: `s[j..i]` moved one place up and
   * `s[i]` written at `j`, where `j` is the first position after the
   * elements that score at least as much.
   */
  lemma ShiftedIsInsert(s: seq<ScoredChunk>, t: seq<ScoredChunk>, i: nat, j: nat)
    requires j <= i < |s| == |t|
    requires forall k :: 0 <= k < j ==> t[k] == s[k]
    requires t[j] == s[i]
    requires forall k :: j < k <= i ==> t[k] == s[k - 1]
    requires forall k :: i < k < |t| ==> t[k] == s[k]
    requires forall k :: j <= k < i ==> s[k].score < s[i].score
    requires j > 0 ==> s[j - 1].score >= s[i].score
    ensures t[..i + 1] == Insert(s[..i], s[i])
    ensures t[i + 1..] == s[i + 1..]
  {
    var p := s[..i];
    var x := s[i];
    var at := InsertSplit(p, x);
    assert j == at;
    var q := p[..j] + [x] + p[j..];
    assert |q| == i + 1;
    forall k | 0 <= k <= i
      ensures t[k] == q[k]
    {
      if k < j {
        assert q[k] == p[k];
      } else if k > j {
        assert q[k] == p[k - 1];
      }
    }
    assert t[..i + 1] == q;
  }

  // ------------------------------------------------------------ properties

  /** `Insert` puts `x` at one position `j`, after every element scoring at least as much. */
  lemma {:induction false} InsertSplit(t: seq<ScoredChunk>, x: ScoredChunk) returns (j: nat)
    ensures j <= |t| && Insert(t, x) == t[..j] + [x] + t[j..]
    ensures forall k :: j <= k < |t| ==> t[k].score < x.score
    ensures j > 0 ==> t[j - 1].score >= x.score
    decreases |t|
  {
    if t == [] || t[|t| - 1].score >= x.score {
      j := |t|;
    } else {
      var init := t[..|t| - 1];
      j := InsertSplit(init, x);
      assert init[..j] == t[..j];
      assert init[j..] + [t[|t| - 1]] == t[j..];
    }
  }

  lemma InsertSorted(t: seq<ScoredChunk>, x: ScoredChunk)
    requires SortedByScore(t)
    ensures SortedByScore(Insert(t, x))
  {
    var j := InsertSplit(t, x);
    var r := Insert(t, x);
    forall a, b | 0 <= a < b < |r|
      ensures r[a].score >= r[b].score
    {
      if a < j && b == j {
        assert r[a] == t[a] && t[a].score >= t[j - 1].score;
      } else if a < j && b > j {
        assert r[a] == t[a] && r[b] == t[b - 1];
      } else if a == j {
        assert r[b] == t[b - 1];
      } else if a > j {
        assert r[a] == t[a - 1] && r[b] == t[b - 1];
      }
    }
  }

  /** The result of the sort is non-increasing by score. */
  lemma {:induction false} SortByScoreSorted(s: seq<ScoredChunk>)
    ensures SortedByScore(SortByScore(s))
    decreases |s|
  {
    if s != [] {
      SortByScoreSorted(s[..|s| - 1]);
      InsertSorted(SortByScore(s[..|s| - 1]), s[|s| - 1]);
    }
  }

  lemma InsertPermutes(t: seq<ScoredChunk>, x: ScoredChunk)
    ensures multiset(Insert(t, x)) == multiset(t) + multiset{x}
    ensures |Insert(t, x)| == |t| + 1
  {
    var j := InsertSplit(t, x);
    var a, b := t[..j], t[j..];
    assert t == a + b;
    assert multiset(t) == multiset(a) + multiset(b);
    assert multiset(a + [x] + b) == multiset(a) + multiset{x} + multiset(b);
  }

  /** The result of the sort is a permutation of its input. */
  lemma {:induction false} SortByScorePermutes(s: seq<ScoredChunk>)
    ensures multiset(SortByScore(s)) == multiset(s)
    ensures |SortByScore(s)| == |s|
    decreases |s|
  {
    if s != [] {
      var init, x := s[..|s| - 1], s[|s| - 1];
      SortByScorePermutes(init);
      InsertPermutes(SortByScore(init), x);
      assert SortByScore(s) == Insert(SortByScore(init), x);
      assert s == init + [x];
      assert multiset(s) == multiset(init) + multiset{x};
    }
  }

  lemma {:induction false} FilterConcat(a: seq<ScoredChunk>, b: seq<ScoredChunk>, p: ScoredChunk -> bool)
    ensures Filter(a + b, p) == Filter(a, p) + Filter(b, p)
    decreases |a|
  {
    if a != [] {
      FilterConcat(a[1..], b, p);
      assert (a + b)[0] == a[0];
      assert (a + b)[1..] == a[1..] + b;
    } else {
      assert a + b == b;
    }
  }

  lemma {:induction false} FilterNone(s: seq<ScoredChunk>, p: ScoredChunk -> bool)
    requires forall k :: 0 <= k < |s| ==> !p(s[k])
    ensures Filter(s, p) == []
    decreases |s|
  {
    if s != [] {
      FilterNone(s[1..], p);
    }
  }

  lemma {:induction false} FilterAll(s: seq<ScoredChunk>, p: ScoredChunk -> bool)
    requires forall k :: 0 <= k < |s| ==> p(s[k])
    ensures Filter(s, p) == s
    decreases |s|
  {
    if s != [] {
      FilterAll(s[1..], p);
    }
  }

  lemma FilterSubset(s: seq<ScoredChunk>, p: ScoredChunk -> bool)
    ensures |Filter(s, p)| <= |s|
    ensures forall c :: c in Filter(s, p) ==> c in s && p(c)
  {
    if s != [] {
      FilterSubset(s[1..], p);
    }
  }

  lemma FilterSingle(x: ScoredChunk, p: ScoredChunk -> bool)
    ensures Filter([x], p) == if p(x) then [x] else []
  {
    assert [x][1..] == [];
  }

  /** Filtering after an insertion: the filtered parts before and after `x` keep their order. */
  lemma InsertFilterSplit(t: seq<ScoredChunk>, x: ScoredChunk, p: ScoredChunk -> bool) returns (j: nat)
    ensures j <= |t| && Filter(t, p) == Filter(t[..j], p) + Filter(t[j..], p)
    ensures Filter(Insert(t, x), p) == Filter(t[..j], p) + (if p(x) then [x] else []) + Filter(t[j..], p)
    ensures forall k :: j <= k < |t| ==> t[k].score < x.score
  {
    j := InsertSplit(t, x);
    FilterConcat(t[..j] + [x], t[j..], p);
    FilterConcat(t[..j], [x], p);
    FilterSingle(x, p);
    assert t == t[..j] + t[j..];
    FilterConcat(t[..j], t[j..], p);
  }

  lemma InsertFilter(t: seq<ScoredChunk>, x: ScoredChunk, p: ScoredChunk -> bool)
    ensures |Filter(Insert(t, x), p)| == |Filter(t, p)| + (if p(x) then 1 else 0)
    ensures (forall k :: 0 <= k < |t| && p(t[k]) ==> t[k].score >= x.score) ==>
              Filter(Insert(t, x), p) == Filter(t, p) + (if p(x) then [x] else [])
    ensures !p(x) ==> Filter(Insert(t, x), p) == Filter(t, p)
  {
    var j := InsertFilterSplit(t, x, p);
    if forall k :: 0 <= k < |t| && p(t[k]) ==> t[k].score >= x.score {
      forall k | 0 <= k < |t[j..]|
        ensures !p(t[j..][k])
      {
        assert t[j..][k] == t[j + k];
      }
      FilterNone(t[j..], p);
    }
  }

  /**
   * Stability: the chunks of any one score come out of the sort in the order
   * they went in.
   */
  lemma {:induction false} SortByScoreStable(s: seq<ScoredChunk>, v: nat)
    ensures Filter(SortByScore(s), ScoreIs(v)) == Filter(s, ScoreIs(v))
    decreases |s|
  {
    if s != [] {
      var init, x := s[..|s| - 1], s[|s| - 1];
      var p := ScoreIs(v);
      SortByScoreStable(init, v);
      assert forall c :: p(c) <==> c.score == v;
      assert s == init + [x];
      FilterConcat(init, [x], p);
      FilterSingle(x, p);
      InsertFilter(SortByScore(init), x, p);
    }
  }

  /** The sort keeps, for any property of chunks, how many chunks have it. */
  lemma {:induction false} SortByScoreKeepsCount(s: seq<ScoredChunk>, p: ScoredChunk -> bool)
    ensures |Filter(SortByScore(s), p)| == |Filter(s, p)|
    decreases |s|
  {
    if s != [] {
      var init, x := s[..|s| - 1], s[|s| - 1];
      SortByScoreKeepsCount(init, p);
      assert s == init + [x];
      FilterConcat(init, [x], p);
      FilterSingle(x, p);
      InsertFilter(SortByScore(init), x, p);
    }
  }

  /** Taking a prefix keeps, of each filtered sequence, a prefix. */
  lemma FilterTake(s: seq<ScoredChunk>, n: nat, p: ScoredChunk -> bool)
    ensures Filter(Take(s, n), p) <= Filter(s, p)
  {
    var t := Take(s, n);
    assert s == t + s[|t|..];
    FilterConcat(t, s[|t|..], p);
  }

  /**
   * Any stable sort by descending score gives the result of `SortByScore`:
   * a sequence ordered by score in which the chunks of each score appear in
   * their input order is unique.
   */
  lemma {:induction false} StableSortUnique(s: seq<ScoredChunk>, r: seq<ScoredChunk>)
    requires SortedByScore(r)
    requires forall v: nat :: Filter(r, ScoreIs(v)) == Filter(s, ScoreIs(v))
    ensures r == SortByScore(s)
  {
    var q := SortByScore(s);
    SortByScoreSorted(s);
    forall v: nat
      ensures Filter(r, ScoreIs(v)) == Filter(q, ScoreIs(v))
    {
      SortByScoreStable(s, v);
    }
    SortedUnique(r, q);
  }

  lemma FilterHead(r: seq<ScoredChunk>, v: nat)
    requires r != []
    ensures Filter(r, ScoreIs(v)) == (if r[0].score == v then [r[0]] else []) + Filter(r[1..], ScoreIs(v))
  {
  }

  /** A non-empty sequence has at least its head among the chunks of the head's score. */
  lemma HeadInOwnFilter(r: seq<ScoredChunk>)
    requires r != []
    ensures Filter(r, ScoreIs(r[0].score)) != []
  {
    assert Filter(r, ScoreIs(r[0].score)) == [r[0]] + Filter(r[1..], ScoreIs(r[0].score));
  }

  lemma {:induction false} SortedUnique(r: seq<ScoredChunk>, q: seq<ScoredChunk>)
    requires SortedByScore(r) && SortedByScore(q)
    requires forall v: nat :: Filter(r, ScoreIs(v)) == Filter(q, ScoreIs(v))
    ensures r == q
    decreases |r| + |q|
  {
    if r == [] || q == [] {
      if r != [] {
        HeadInOwnFilter(r);
        assert false;
      } else if q != [] {
        HeadInOwnFilter(q);
        assert false;
      }
    } else {
      var m, n := r[0].score, q[0].score;
      assert Filter(r, ScoreIs(m)) == [r[0]] + Filter(r[1..], ScoreIs(m));
      assert Filter(q, ScoreIs(n)) == [q[0]] + Filter(q[1..], ScoreIs(n));
      assert m == n by {
        FilterSubset(q, ScoreIs(m));
        FilterSubset(r, ScoreIs(n));
        var c :| c in Filter(q, ScoreIs(m));
        var d :| d in Filter(r, ScoreIs(n));
        assert c in q && c.score == m;
        assert d in r && d.score == n;
        var ic :| 0 <= ic < |q| && q[ic] == c;
        var id :| 0 <= id < |r| && r[id] == d;
        assert q[0].score >= q[ic].score;
        assert r[0].score >= r[id].score;
      }
      var fr, fq := Filter(r, ScoreIs(m)), Filter(q, ScoreIs(m));
      assert fr == fq;
      assert fr[0] == r[0] && fq[0] == q[0];
      assert r[0] == q[0];
      forall v: nat
        ensures Filter(r[1..], ScoreIs(v)) == Filter(q[1..], ScoreIs(v))
      {
        FilterHead(r, v);
        FilterHead(q, v);
        var head := if m == v then [r[0]] else [];
        assert head + Filter(r[1..], ScoreIs(v)) == head + Filter(q[1..], ScoreIs(v));
        assert (head + Filter(r[1..], ScoreIs(v)))[|head|..] == Filter(r[1..], ScoreIs(v));
        assert (head + Filter(q[1..], ScoreIs(v)))[|head|..] == Filter(q[1..], ScoreIs(v));
      }
      SortedUnique(r[1..], q[1..]);
      assert r == [r[0]] + r[1..];
      assert q == [q[0]] + q[1..];
    }
  }
}
