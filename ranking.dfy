/** Ranking of matched countries by score: the `sort((a, b) => a.score -
    b.score)` and the final `map(item => item.country)` of
    components/CountryCombobox.tsx, stated for any scoring function. */
module Ranking {
  import opened Types

  /** A country together with its score; lower is better. */
  datatype Ranked = Ranked(country: Country, score: nat)

  /** Places `x` before the first entry whose score is not smaller. */
  function Insert(x: Ranked, s: seq<Ranked>): seq<Ranked>
  {
    if s == [] || x.score <= s[0].score then [x] + s
    else [s[0]] + Insert(x, s[1..])
  }

  /** `sort((a, b) => a.score - b.score)`. ECMAScript requires
      `Array.prototype.sort` to be stable, so this is a sort that keeps
      entries of equal score in their input order: an insertion sort. */
  function SortByScore(s: seq<Ranked>): seq<Ranked>
  {
    if s == [] then [] else Insert(s[0], SortByScore(s[1..]))
  }

  predicate SortedByScore(s: seq<Ranked>)
  {
    forall i, j :: 0 <= i < j < |s| ==> s[i].score <= s[j].score
  }

  /** The entries with score `k`, in order. */
  function WithScore(s: seq<Ranked>, k: nat): seq<Ranked>
  {
    if s == [] then [] else (if s[0].score == k then [s[0]] else []) + WithScore(s[1..], k)
  }

  lemma {:induction false} InsertMultiset(x: Ranked, s: seq<Ranked>)
    ensures multiset(Insert(x, s)) == multiset(s) + multiset{x}
    decreases |s|
  {
    if s != [] && x.score > s[0].score {
      InsertMultiset(x, s[1..]);
      assert s == [s[0]] + s[1..];
    }
  }

  lemma {:induction false} InsertSorted(x: Ranked, s: seq<Ranked>)
    requires SortedByScore(s)
    ensures SortedByScore(Insert(x, s))
    decreases |s|
  {
    if s != [] && x.score > s[0].score {
      var t := Insert(x, s[1..]);
      InsertSorted(x, s[1..]);
      InsertMultiset(x, s[1..]);
      forall j | 0 <= j < |t|
        ensures s[0].score <= t[j].score
      {
        assert t[j] in multiset(t);
        if t[j] != x {
          assert t[j] in multiset(s[1..]);
          var m :| 0 <= m < |s[1..]| && s[1..][m] == t[j];
          assert s[m + 1] == t[j];
        }
      }
      assert Insert(x, s) == [s[0]] + t;
    }
  }

  lemma {:induction false} InsertStable(x: Ranked, s: seq<Ranked>, k: nat)
    ensures WithScore(Insert(x, s), k) == WithScore([x] + s, k)
    decreases |s|
  {
    if s != [] && x.score > s[0].score {
      var t := Insert(x, s[1..]);
      InsertStable(x, s[1..], k);
      assert ([s[0]] + t)[1..] == t;
      assert ([x] + s)[1..] == s;
      assert ([x] + s[1..])[1..] == s[1..];
      assert s == [s[0]] + s[1..];
    }
  }

  /** The sort loses and adds nothing. */
  lemma {:induction false} SortPermutes(s: seq<Ranked>)
    ensures multiset(SortByScore(s)) == multiset(s)
    decreases |s|
  {
    if s != [] {
      SortPermutes(s[1..]);
      InsertMultiset(s[0], SortByScore(s[1..]));
      assert s == [s[0]] + s[1..];
    }
  }

  /** The sort puts the scores in non-decreasing order. */
  lemma {:induction false} SortSorts(s: seq<Ranked>)
    ensures SortedByScore(SortByScore(s))
    decreases |s|
  {
    if s != [] {
      SortSorts(s[1..]);
      InsertSorted(s[0], SortByScore(s[1..]));
    }
  }

  /** The sort is stable: the entries of each score keep their input order. */
  lemma {:induction false} SortStable(s: seq<Ranked>, k: nat)
    ensures WithScore(SortByScore(s), k) == WithScore(s, k)
    decreases |s|
  {
    if s != [] {
      SortStable(s[1..], k);
      InsertStable(s[0], SortByScore(s[1..]), k);
      assert ([s[0]] + SortByScore(s[1..]))[1..] == SortByScore(s[1..]);
    }
  }

  /** A list of at most one entry is already sorted. */
  lemma SortShort(s: seq<Ranked>)
    requires |s| <= 1
    ensures SortByScore(s) == s
  {
  }

  /** The final `map(item => item.country)`. */
  function CountriesOf(s: seq<Ranked>): (r: seq<Country>)
    ensures |r| == |s|
    ensures forall k :: 0 <= k < |s| ==> r[k] == s[k].country
  {
    if s == [] then [] else [s[0].country] + CountriesOf(s[1..])
  }

  /** The countries of `cs` that `score` rates `k`, in order. */
  function CountriesWithScore(score: Country -> Option<nat>, cs: seq<Country>, k: nat): seq<Country>
  {
    if cs == [] then []
    else (if score(cs[0]) == Some(k) then [cs[0]] else []) + CountriesWithScore(score, cs[1..], k)
  }

  /** Every entry carries the score its country earns. */
  predicate ScoresAgree(score: Country -> Option<nat>, s: seq<Ranked>)
  {
    forall i :: 0 <= i < |s| ==> score(s[i].country) == Some(s[i].score)
  }

  /** Rearranging the entries keeps them in agreement with the scores. */
  lemma SortKeepsScores(score: Country -> Option<nat>, s: seq<Ranked>)
    requires ScoresAgree(score, s)
    ensures ScoresAgree(score, SortByScore(s))
  {
    var t := SortByScore(s);
    SortPermutes(s);
    forall i | 0 <= i < |t|
      ensures score(t[i].country) == Some(t[i].score)
    {
      assert t[i] in multiset(s);
      var j :| 0 <= j < |s| && s[j] == t[i];
    }
  }

  /** Selecting the countries of one score commutes with dropping the scores. */
  lemma {:induction false} CountriesOfWithScore(score: Country -> Option<nat>, s: seq<Ranked>, k: nat)
    requires ScoresAgree(score, s)
    ensures CountriesWithScore(score, CountriesOf(s), k) == CountriesOf(WithScore(s, k))
    decreases |s|
  {
    if s != [] {
      CountriesOfWithScore(score, s[1..], k);
      assert CountriesOf(s)[1..] == CountriesOf(s[1..]);
      if s[0].score == k {
        assert CountriesOf([s[0]] + WithScore(s[1..], k)) == [s[0].country] + CountriesOf(WithScore(s[1..], k));
      }
    }
  }

  /** The countries of score `k` are the members of `cs` with that score. */
  lemma {:induction false} CountriesWithScoreMembers(score: Country -> Option<nat>, cs: seq<Country>, k: nat, c: Country)
    ensures c in CountriesWithScore(score, cs, k) <==> c in cs && score(c) == Some(k)
    decreases |cs|
  {
    if cs != [] {
      CountriesWithScoreMembers(score, cs[1..], k, c);
      assert cs == [cs[0]] + cs[1..];
    }
  }
}
