/**
 * The final `results.sort((a, b) => b.score - a.score)` of the scoring engine.
 * `Array.prototype.sort` is stable, so the result is the one ordering that is
 * non-increasing in score and keeps catalog order among equal scores. It is given
 * here by a stable insertion sort, and `SortUnique` shows that no other stable
 * descending sort could return anything else.
 */
module ScoreSort {
  import opened Types

  /** Highest score first. */
  predicate SortedDesc(s: seq<Scored>) {
    forall i, j :: 0 <= i < j < |s| ==> s[i].score >= s[j].score
  }

  /** The entries of `s` that have score `k`, in their order in `s`. */
  function WithScore(s: seq<Scored>, k: int): (r: seq<Scored>)
    ensures |r| <= |s|
  {
    if s == [] then [] else (if s[0].score == k then [s[0]] else []) + WithScore(s[1..], k)
  }

  /** `WithScore(s, k)` holds exactly the entries of `s` with score `k`. */
  lemma {:induction false} WithScoreMembers(s: seq<Scored>, k: int)
    ensures forall x :: x in WithScore(s, k) <==> x in s && x.score == k
  {
    if s != [] {
      WithScoreMembers(s[1..], k);
      assert s == [s[0]] + s[1..];
    }
  }

  /** The itineraries of a scored list, in order. */
  function Itineraries(s: seq<Scored>): (r: seq<Itinerary>)
    ensures |r| == |s|
    ensures forall i :: 0 <= i < |s| ==> r[i] == s[i].itinerary
  {
    if s == [] then [] else [s[0].itinerary] + Itineraries(s[1..])
  }

  /** Puts `x` in front of the first entry of `t` whose score is at most its own. */
  function Insert(x: Scored, t: seq<Scored>): (r: seq<Scored>)
    ensures multiset(r) == multiset{x} + multiset(t)
  {
    if t == [] then [x]
    else if x.score >= t[0].score then [x] + t
    else
      assert t == [t[0]] + t[1..];
      [t[0]] + Insert(x, t[1..])
  }

  /** Inserting into a sorted list keeps it sorted. */
  lemma {:induction false} InsertSorted(x: Scored, t: seq<Scored>)
    requires SortedDesc(t)
    ensures SortedDesc(Insert(x, t))
  {
    if t != [] && x.score < t[0].score {
      var rest := Insert(x, t[1..]);
      InsertSorted(x, t[1..]);
      forall y | y in rest ensures y.score <= t[0].score {
        assert y in multiset(rest);
      }
    }
  }

  /** Selecting by score distributes over a leading entry. */
  lemma WithScoreCons(x: Scored, t: seq<Scored>, k: int)
    ensures WithScore([x] + t, k) == (if x.score == k then [x] else []) + WithScore(t, k)
  {
    assert ([x] + t)[1..] == t;
  }

  /** `x` lands before every entry of `t` that has its score, so ties keep their order. */
  lemma {:induction false} InsertWithScoreAt(x: Scored, t: seq<Scored>, k: int)
    ensures WithScore(Insert(x, t), k) == (if x.score == k then [x] else []) + WithScore(t, k)
  {
    if t == [] {
      WithScoreCons(x, [], k);
      assert [x] + [] == [x];
    } else if x.score >= t[0].score {
      WithScoreCons(x, t, k);
    } else {
      var rest := Insert(x, t[1..]);
      var w := WithScore(t[1..], k);
      assert Insert(x, t) == [t[0]] + rest;
      InsertWithScoreAt(x, t[1..], k);
      WithScoreCons(t[0], rest, k);
      WithScoreCons(t[0], t[1..], k);
      assert t == [t[0]] + t[1..];
      if x.score == k {
        assert t[0].score != k;
        assert WithScore(Insert(x, t), k) == [] + ([x] + w);
        assert [] + ([x] + w) == [x] + ([] + w);
      } else {
        assert WithScore(Insert(x, t), k) == (if t[0].score == k then [t[0]] else []) + ([] + w);
        assert [] + w == w;
      }
    }
  }

  /** Inserting adds exactly the one itinerary. */
  lemma {:induction false} InsertItineraries(x: Scored, t: seq<Scored>)
    ensures multiset(Itineraries(Insert(x, t))) == multiset{x.itinerary} + multiset(Itineraries(t))
  {
    if t != [] && x.score < t[0].score {
      InsertItineraries(x, t[1..]);
      assert Itineraries([t[0]] + Insert(x, t[1..])) == [t[0].itinerary] + Itineraries(Insert(x, t[1..]));
      assert Itineraries(t) == [t[0].itinerary] + Itineraries(t[1..]);
    } else if t != [] {
      assert Itineraries([x] + t) == [x.itinerary] + Itineraries(t);
    }
  }

  /** The stable, score-descending sort `Array.prototype.sort` performs: a reordering of `s`. */
  function SortByScore(s: seq<Scored>): (r: seq<Scored>)
    ensures multiset(r) == multiset(s)
  {
    if s == [] then []
    else
      assert s == [s[0]] + s[1..];
      Insert(s[0], SortByScore(s[1..]))
  }

  /** The sort puts the highest score first. */
  lemma {:induction false} SortSorted(s: seq<Scored>)
    ensures SortedDesc(SortByScore(s))
  {
    if s != [] {
      SortSorted(s[1..]);
      InsertSorted(s[0], SortByScore(s[1..]));
    }
  }

  /** The sort is stable: the entries with score `k` keep their relative order. */
  lemma {:induction false} SortStableAt(s: seq<Scored>, k: int)
    ensures WithScore(SortByScore(s), k) == WithScore(s, k)
  {
    if s != [] {
      SortStableAt(s[1..], k);
      InsertWithScoreAt(s[0], SortByScore(s[1..]), k);
    }
  }

  /** The sort is stable for every score at once. */
  lemma SortStable(s: seq<Scored>)
    ensures forall k :: WithScore(SortByScore(s), k) == WithScore(s, k)
  {
    forall k ensures WithScore(SortByScore(s), k) == WithScore(s, k) {
      SortStableAt(s, k);
    }
  }

  /** The sort returns the same itineraries, as a multiset. */
  lemma {:induction false} SortItineraries(s: seq<Scored>)
    ensures multiset(Itineraries(SortByScore(s))) == multiset(Itineraries(s))
  {
    if s != [] {
      SortItineraries(s[1..]);
      InsertItineraries(s[0], SortByScore(s[1..]));
      assert Itineraries(s) == [s[0].itinerary] + Itineraries(s[1..]);
    }
  }

  /** Two non-empty descending lists with the same entries per score start with the same score. */
  lemma HeadScoresAgree(a: seq<Scored>, b: seq<Scored>)
    requires a != [] && b != [] && SortedDesc(a) && SortedDesc(b)
    requires forall k :: WithScore(a, k) == WithScore(b, k)
    ensures a[0].score == b[0].score
  {
    WithScoreMembers(a, a[0].score);
    WithScoreMembers(b, a[0].score);
    WithScoreMembers(a, b[0].score);
    WithScoreMembers(b, b[0].score);
    assert a[0] in b;
    assert b[0] in a;
    var i :| 0 <= i < |a| && a[i] == b[0];
    var j :| 0 <= j < |b| && b[j] == a[0];
  }

  /** Equal lists with one-element heads have equal heads and equal tails. */
  lemma ConsInjective(x: Scored, s: seq<Scored>, y: Scored, t: seq<Scored>)
    requires [x] + s == [y] + t
    ensures x == y && s == t
  {
    assert ([x] + s)[0] == x && ([y] + t)[0] == y;
    assert ([x] + s)[1..] == s && ([y] + t)[1..] == t;
  }

  /** ... and then they have the same head, and their tails the same entries per score. */
  lemma TailsAgree(a: seq<Scored>, b: seq<Scored>)
    requires a != [] && b != [] && SortedDesc(a) && SortedDesc(b)
    requires forall k :: WithScore(a, k) == WithScore(b, k)
    ensures a[0] == b[0]
    ensures forall k :: WithScore(a[1..], k) == WithScore(b[1..], k)
  {
    HeadScoresAgree(a, b);
    var k := a[0].score;
    assert WithScore(a, k) == [a[0]] + WithScore(a[1..], k);
    assert WithScore(b, k) == [b[0]] + WithScore(b[1..], k);
    ConsInjective(a[0], WithScore(a[1..], k), b[0], WithScore(b[1..], k));
    forall k' | k' != k ensures WithScore(a[1..], k') == WithScore(b[1..], k') {
      assert WithScore(a, k') == WithScore(a[1..], k');
      assert WithScore(b, k') == WithScore(b[1..], k');
    }
  }

  /** Two score-descending lists with the same entries per score, in the same order, are equal. */
  lemma {:induction false} SortedStableEqual(a: seq<Scored>, b: seq<Scored>)
    requires SortedDesc(a) && SortedDesc(b)
    requires forall k :: WithScore(a, k) == WithScore(b, k)
    ensures a == b
  {
    if a != [] {
      WithScoreMembers(a, a[0].score);
      WithScoreMembers(b, a[0].score);
      assert a[0] in b;
    }
    if b != [] {
      WithScoreMembers(a, b[0].score);
      WithScoreMembers(b, b[0].score);
      assert b[0] in a;
    }
    if a != [] && b != [] {
      TailsAgree(a, b);
      SortedStableEqual(a[1..], b[1..]);
      assert a == [a[0]] + a[1..];
      assert b == [b[0]] + b[1..];
    }
  }

  /**
   * Any ordering of `s` that is score-descending and keeps the order of equal scores is
   * exactly `SortByScore(s)`: the model does not depend on which stable sort the runtime uses.
   */
  lemma SortUnique(s: seq<Scored>, t: seq<Scored>)
    requires SortedDesc(t)
    requires forall k :: WithScore(t, k) == WithScore(s, k)
    ensures t == SortByScore(s)
  {
    SortSorted(s);
    SortStable(s);
    SortedStableEqual(t, SortByScore(s));
  }

  /** When every entry has the same score the sort changes nothing. */
  lemma SortConstant(s: seq<Scored>, k: int)
    requires forall i :: 0 <= i < |s| ==> s[i].score == k
    ensures SortByScore(s) == s
  {
    assert WithScore(s, k) == s by { WithScoreAll(s, k); }
    forall k' | k' != k ensures WithScore(s, k') == [] {
      WithScoreNone(s, k');
    }
    SortUnique(s, s);
  }

  lemma {:induction false} WithScoreAll(s: seq<Scored>, k: int)
    requires forall i :: 0 <= i < |s| ==> s[i].score == k
    ensures WithScore(s, k) == s
  {
    if s != [] {
      WithScoreAll(s[1..], k);
    }
  }

  lemma {:induction false} WithScoreNone(s: seq<Scored>, k: int)
    requires forall i :: 0 <= i < |s| ==> s[i].score != k
    ensures WithScore(s, k) == []
  {
    if s != [] {
      WithScoreNone(s[1..], k);
    }
  }
}
