/** The approximate country-name matcher of components/CountryCombobox.tsx:
    the normalized-name index, the tiered scorer, and the filter-and-rank
    pipeline behind the country selector. */
module CountryMatcher {
  import opened Types
  import opened JsStrings
  import opened Normalize
  import opened Levenshtein
  import opened Ranking

  /** `Math.floor(len * 0.4) + 1`. The double nearest 0.4 lies a hair above
      0.4, and `2 * len / 5` is never within that hair below an integer, so
      the floor equals the integer quotient `(2 * len) / 5`. */
  function Threshold(len: nat): nat
  {
    (2 * len) / 5 + 1
  }

  /** The initial value of `bestWordDist`: "no word close enough". */
  const NoWordMatch: nat := 100

  function Abs(x: int): nat
  {
    if x < 0 then -x else x
  }

  /** A word the fallback compares with the query: its length is within two
      of the query's. */
  predicate IsCandidateWord(q: string, w: string)
  {
    Abs(|w| - |q|) <= 2
  }

  /** What the word loop leaves in `bestWordDist` after visiting `words` in
      order: the least distance from the query to a candidate word, or 100
      when no candidate is closer than that. */
  function BestWordDistance(q: string, words: seq<string>): nat
    decreases |words|
  {
    if words == [] then NoWordMatch
    else
      var best := BestWordDistance(q, words[..|words| - 1]);
      var word := words[|words| - 1];
      if !IsCandidateWord(q, word) then best
      else
        var d := EditDistance(q, word);
        if d < best then d else best
  }

  /** The word loop: skips words whose length is more than two away from the
      query's and keeps the least distance seen. */
  method BestWordDist(q: string, words: seq<string>) returns (bestWordDist: nat)
    ensures bestWordDist == BestWordDistance(q, words)
  {
    bestWordDist := NoWordMatch;
    for k := 0 to |words|
      invariant bestWordDist == BestWordDistance(q, words[..k])
    {
      assert words[..k + 1][..k] == words[..k];
      var word := words[k];
      if Abs(|word| - |q|) > 2 {
        continue;
      }
      var d := LevenshteinDistance(q, word);
      if d < bestWordDist {
        bestWordDist := d;
      }
    }
    assert words[..|words|] == words;
  }

  /** The loop's result is at most 100 and at most the distance to every
      candidate word, and it is either 100 or the distance to one of them. */
  lemma {:induction false} BestWordDistanceIsMinimum(q: string, words: seq<string>)
    ensures BestWordDistance(q, words) <= NoWordMatch
    ensures forall k :: 0 <= k < |words| && IsCandidateWord(q, words[k]) ==>
              BestWordDistance(q, words) <= EditDistance(q, words[k])
    ensures BestWordDistance(q, words) == NoWordMatch ||
            exists k :: 0 <= k < |words| && IsCandidateWord(q, words[k]) &&
                        BestWordDistance(q, words) == EditDistance(q, words[k])
    decreases |words|
  {
    if words != [] {
      var init := words[..|words| - 1];
      BestWordDistanceIsMinimum(q, init);
      assert forall k :: 0 <= k < |init| ==> init[k] == words[k];
      if BestWordDistance(q, words) != NoWordMatch && BestWordDistance(q, words) == BestWordDistance(q, init) {
        var k :| 0 <= k < |init| && IsCandidateWord(q, init[k]) &&
                 BestWordDistance(q, init) == EditDistance(q, init[k]);
        assert words[k] == init[k];
      }
    }
  }

  /** The word fallback accepts exactly when some word is at most one edit
      from the query, whatever its length filter; it then scores the least
      such distance. The filter only saves work: a word within one edit
      differs in length by at most one. */
  lemma WordFallbackAccepts(q: string, words: seq<string>)
    ensures BestWordDistance(q, words) <= 1 <==>
            exists k :: 0 <= k < |words| && EditDistance(q, words[k]) <= 1
    ensures forall k :: 0 <= k < |words| && EditDistance(q, words[k]) <= 1 ==>
              BestWordDistance(q, words) <= EditDistance(q, words[k])
  {
    BestWordDistanceIsMinimum(q, words);
    forall k | 0 <= k < |words| && EditDistance(q, words[k]) <= 1
      ensures IsCandidateWord(q, words[k])
    {
      EditDistanceBounds(q, words[k]);
    }
  }

  /** The score of one country for a non-empty normalized query, lower is
      better, or `None` when the country does not match. The tiers are tried
      in order: exact (0), prefix (10), substring (20), whole-name fuzzy
      (30 + distance, for queries of two or more characters within the
      threshold), word fuzzy (40 + distance, when some word is at most one
      edit away). */
  function MatchScore(q: string, normAr: string, normEn: string): (r: Option<nat>)
    ensures r == Some(0) <==> (normAr == q || normEn == q)
    ensures (r.Some? && r.value <= 20) <==> (Includes(normAr, q) || Includes(normEn, q))
    ensures r.Some? && r.value <= 20 ==> r.value in {0, 10, 20}
    ensures r.Some? && r.value > 20 ==> |q| >= 2 && r.value >= 30
  {
    SubstringTiers(q, normAr);
    SubstringTiers(q, normEn);
    if normAr == q || normEn == q then Some(0)
    else if StartsWith(normAr, q) || StartsWith(normEn, q) then Some(10)
    else if Includes(normAr, q) || Includes(normEn, q) then Some(20)
    else if |q| >= 2 then
      var distAr := EditDistance(q, normAr);
      var distEn := EditDistance(q, normEn);
      var threshold := Threshold(|q|);
      if distAr <= threshold || distEn <= threshold then
        Some(30 + (if distAr <= distEn then distAr else distEn))
      else
        var words := Split(normAr, ' ') + Split(normEn, ' ');
        var bestWordDist := BestWordDistance(q, words);
        if bestWordDist <= 1 then Some(40 + bestWordDist) else None
    else None
  }

  /** Equality and prefix are special cases of inclusion. */
  lemma SubstringTiers(q: string, name: string)
    ensures name == q ==> StartsWith(name, q)
    ensures StartsWith(name, q) ==> Includes(name, q)
  {
  }

  /** A country with its two names normalized once, as the memoized index
      holds it. */
  datatype SearchableCountry = SearchableCountry(country: Country, normAr: string, normEn: string)

  /** The index entry of one country. */
  function Searchable(c: Country): SearchableCountry
  {
    SearchableCountry(c, NormalizeText(c.nameAr), NormalizeText(c.nameEn))
  }

  /** `searchableCountries`: the index, one entry per country, in order. */
  function SearchableCountries(countries: seq<Country>): (r: seq<SearchableCountry>)
    ensures |r| == |countries|
    ensures forall k :: 0 <= k < |r| ==> r[k] == Searchable(countries[k])
  {
    if countries == [] then [] else [Searchable(countries[0])] + SearchableCountries(countries[1..])
  }

  /** The scoring callback of the `map`, for a normalized query. */
  function ItemScore(q: string): SearchableCountry -> Option<nat>
  {
    (item: SearchableCountry) => MatchScore(q, item.normAr, item.normEn)
  }

  /** The `map` that scores every index entry followed by the `filter` that
      keeps the matches. */
  function RankMatches(items: seq<SearchableCountry>, score: SearchableCountry -> Option<nat>): seq<Ranked>
  {
    if items == [] then []
    else
      (match score(items[0])
       case Some(s) => [Ranked(items[0].country, s)]
       case None => [])
      + RankMatches(items[1..], score)
  }

  /** `filteredCountries`: an empty normalized query returns the list as it
      is; otherwise the matching countries, stably sorted by score. */
  function FilteredCountries(countries: seq<Country>, searchQuery: string): seq<Country>
  {
    var query := NormalizeText(searchQuery);
    if query == [] then countries
    else CountriesOf(SortByScore(RankMatches(SearchableCountries(countries), ItemScore(query))))
  }

  /** The score of a country for a normalized query: the reference the
      pipeline is stated against. */
  function ScoreOf(q: string, c: Country): Option<nat>
  {
    MatchScore(q, NormalizeText(c.nameAr), NormalizeText(c.nameEn))
  }

  function ScoreFor(q: string): Country -> Option<nat>
  {
    c => ScoreOf(q, c)
  }

  /** The countries the index entries stand for. */
  function ItemCountries(items: seq<SearchableCountry>): (r: seq<Country>)
    ensures |r| == |items|
    ensures forall i :: 0 <= i < |items| ==> r[i] == items[i].country
  {
    if items == [] then [] else [items[0].country] + ItemCountries(items[1..])
  }

  /** The index keeps the countries and their order. */
  lemma SearchableCountriesKeepCountries(cs: seq<Country>)
    ensures ItemCountries(SearchableCountries(cs)) == cs
  {
  }

  /** `score` rates every entry as `cscore` rates the entry's country. */
  predicate ScoresLikeCountries(score: SearchableCountry -> Option<nat>, cscore: Country -> Option<nat>,
                                items: seq<SearchableCountry>)
  {
    forall i :: 0 <= i < |items| ==> score(items[i]) == cscore(items[i].country)
  }

  /** The scoring callback rates every index entry as its country scores. */
  lemma ItemScoreAgrees(q: string, cs: seq<Country>)
    ensures ScoresLikeCountries(ItemScore(q), ScoreFor(q), SearchableCountries(cs))
  {
  }

  /** Scoring and keeping the matches attaches to each country the score it
      earns. */
  lemma {:induction false} RankMatchesAgree(score: SearchableCountry -> Option<nat>,
                                            cscore: Country -> Option<nat>, items: seq<SearchableCountry>)
    requires ScoresLikeCountries(score, cscore, items)
    ensures ScoresAgree(cscore, RankMatches(items, score))
    decreases |items|
  {
    if items != [] {
      RankMatchesAgree(score, cscore, items[1..]);
    }
  }

  /** Scoring and keeping the matches selects, for each score, the countries
      with that score in input order. */
  lemma {:induction false} RankMatchesSelects(score: SearchableCountry -> Option<nat>,
                                              cscore: Country -> Option<nat>, items: seq<SearchableCountry>, k: nat)
    requires ScoresLikeCountries(score, cscore, items)
    ensures CountriesOf(WithScore(RankMatches(items, score), k)) ==
            CountriesWithScore(cscore, ItemCountries(items), k)
    decreases |items|
  {
    if items != [] {
      RankMatchesSelects(score, cscore, items[1..], k);
      var rest := RankMatches(items[1..], score);
      assert ItemCountries(items)[1..] == ItemCountries(items[1..]);
      var s := score(items[0]);
      if s.Some? {
        var head := Ranked(items[0].country, s.value);
        assert RankMatches(items, score) == [head] + rest;
        assert ([head] + rest)[1..] == rest;
        if s.value == k {
          assert CountriesOf([head] + WithScore(rest, k)) == [head.country] + CountriesOf(WithScore(rest, k));
        }
      } else {
        assert RankMatches(items, score) == rest;
      }
    }
  }

  /** Scoring and keeping the matches of two entries. */
  lemma RankPair(score: SearchableCountry -> Option<nat>, x: SearchableCountry, y: SearchableCountry)
    ensures RankMatches([x, y], score) ==
      (if score(x).Some? then [Ranked(x.country, score(x).value)] else []) +
      (if score(y).Some? then [Ranked(y.country, score(y).value)] else [])
  {
    var one := if score(y).Some? then [Ranked(y.country, score(y).value)] else [];
    assert [y][1..] == [];
    assert RankMatches([y], score) == one + RankMatches([], score);
    assert [x, y][1..] == [y];
  }

  /** The ranked entries behind the result of a non-empty normalized query:
      sorted, each with its country's score, and for each score the
      countries of the list with that score, in input order. */
  lemma FilteredRanked(countries: seq<Country>, searchQuery: string) returns (sorted: seq<Ranked>)
    requires NormalizeText(searchQuery) != []
    ensures FilteredCountries(countries, searchQuery) == CountriesOf(sorted)
    ensures SortedByScore(sorted)
    ensures ScoresAgree(ScoreFor(NormalizeText(searchQuery)), sorted)
    ensures forall k :: CountriesOf(WithScore(sorted, k)) ==
                        CountriesWithScore(ScoreFor(NormalizeText(searchQuery)), countries, k)
  {
    var q := NormalizeText(searchQuery);
    var items := SearchableCountries(countries);
    var ranked := RankMatches(items, ItemScore(q));
    sorted := SortByScore(ranked);
    ItemScoreAgrees(q, countries);
    SearchableCountriesKeepCountries(countries);
    RankMatchesAgree(ItemScore(q), ScoreFor(q), items);
    SortSorts(ranked);
    SortKeepsScores(ScoreFor(q), ranked);
    forall k
      ensures CountriesOf(WithScore(sorted, k)) == CountriesWithScore(ScoreFor(q), countries, k)
    {
      SortStable(ranked, k);
      RankMatchesSelects(ItemScore(q), ScoreFor(q), items, k);
    }
  }

  /** The pipeline for a non-empty normalized query: every result matches,
      results come in non-decreasing score order, and for every score the
      results with that score are exactly the input countries with that
      score, in input order (the sort is stable). Together these fix the
      result completely. */
  lemma FilteredCountriesCorrect(countries: seq<Country>, searchQuery: string)
    requires NormalizeText(searchQuery) != []
    ensures var q, r := NormalizeText(searchQuery), FilteredCountries(countries, searchQuery);
      && (forall i :: 0 <= i < |r| ==> ScoreOf(q, r[i]).Some?)
      && (forall i, j :: 0 <= i < j < |r| ==> ScoreOf(q, r[i]).value <= ScoreOf(q, r[j]).value)
      && (forall k :: CountriesWithScore(ScoreFor(q), r, k) == CountriesWithScore(ScoreFor(q), countries, k))
  {
    var q := NormalizeText(searchQuery);
    var sorted := FilteredRanked(countries, searchQuery);
    forall k
      ensures CountriesWithScore(ScoreFor(q), CountriesOf(sorted), k) == CountriesWithScore(ScoreFor(q), countries, k)
    {
      CountriesOfWithScore(ScoreFor(q), sorted, k);
    }
  }

  /** The result holds the matching countries of the list and nothing else. */
  lemma FilteredCountriesMembers(countries: seq<Country>, searchQuery: string, c: Country)
    requires NormalizeText(searchQuery) != []
    ensures c in FilteredCountries(countries, searchQuery) <==>
            c in countries && ScoreOf(NormalizeText(searchQuery), c).Some?
  {
    var q, r := NormalizeText(searchQuery), FilteredCountries(countries, searchQuery);
    FilteredCountriesCorrect(countries, searchQuery);
    var score := ScoreOf(q, c);
    if score.Some? {
      CountriesWithScoreMembers(ScoreFor(q), r, score.value, c);
      CountriesWithScoreMembers(ScoreFor(q), countries, score.value, c);
    }
  }

  /** An empty normalized query filters nothing and keeps the order. */
  lemma EmptyQueryKeepsAll(countries: seq<Country>, searchQuery: string)
    requires NormalizeText(searchQuery) == []
    ensures FilteredCountries(countries, searchQuery) == countries
  {
  }

  /** A strictly better score always comes first in the result. */
  lemma BetterScoreFirst(countries: seq<Country>, searchQuery: string)
    requires NormalizeText(searchQuery) != []
    ensures var q, r := NormalizeText(searchQuery), FilteredCountries(countries, searchQuery);
      forall i, j ::
        0 <= i < |r| && 0 <= j < |r| && ScoreOf(q, r[i]).Some? && ScoreOf(q, r[j]).Some? &&
        ScoreOf(q, r[i]).value < ScoreOf(q, r[j]).value
        ==> i < j
  {
    FilteredCountriesCorrect(countries, searchQuery);
  }

  /** A country whose normalized Arabic or English name contains the query
      is returned with a score of 0, 10 or 20, and so ahead of every fuzzy
      match, which scores 30 or more. */
  lemma SubstringMatchesFirst(countries: seq<Country>, searchQuery: string, c: Country)
    requires NormalizeText(searchQuery) != [] && c in countries
    requires var q := NormalizeText(searchQuery);
      Includes(NormalizeText(c.nameAr), q) || Includes(NormalizeText(c.nameEn), q)
    ensures var q, r := NormalizeText(searchQuery), FilteredCountries(countries, searchQuery);
      && c in r
      && ScoreOf(q, c).Some? && ScoreOf(q, c).value in {0, 10, 20}
      && forall i, j ::
           0 <= i < |r| && 0 <= j < |r| && r[i] == c && ScoreOf(q, r[j]).Some? && ScoreOf(q, r[j]).value >= 30
           ==> i < j
  {
    var q := NormalizeText(searchQuery);
    FilteredCountriesMembers(countries, searchQuery, c);
    FilteredCountriesCorrect(countries, searchQuery);
    BetterScoreFirst(countries, searchQuery);
    SubstringScore(q, NormalizeText(c.nameAr), NormalizeText(c.nameEn));
  }

  /** A name that contains the query earns a substring-tier score. */
  lemma SubstringScore(q: string, normAr: string, normEn: string)
    requires Includes(normAr, q) || Includes(normEn, q)
    ensures MatchScore(q, normAr, normEn).Some? && MatchScore(q, normAr, normEn).value in {0, 10, 20}
  {
  }

  /** When some country's normalized name equals the query, the first result
      is an exact match. */
  lemma ExactMatchRanksFirst(countries: seq<Country>, searchQuery: string, c: Country)
    requires NormalizeText(searchQuery) != [] && c in countries
    requires var q := NormalizeText(searchQuery); NormalizeText(c.nameAr) == q || NormalizeText(c.nameEn) == q
    ensures var q, r := NormalizeText(searchQuery), FilteredCountries(countries, searchQuery);
      |r| > 0 && ScoreOf(q, r[0]) == Some(0)
  {
    var q, r := NormalizeText(searchQuery), FilteredCountries(countries, searchQuery);
    FilteredCountriesMembers(countries, searchQuery, c);
    FilteredCountriesCorrect(countries, searchQuery);
    var i :| 0 <= i < |r| && r[i] == c;
    assert ScoreOf(q, r[0]).value <= ScoreOf(q, r[i]).value;
  }

  /** For a query of two or more characters the threshold is at least one,
      so a query one substitution, insertion or deletion away from a
      normalized name always finds that country. */
  lemma OneTypoStillFound(countries: seq<Country>, searchQuery: string, c: Country)
    requires c in countries
    requires var q := NormalizeText(searchQuery);
      |q| >= 2 && (EditDistance(q, NormalizeText(c.nameAr)) <= 1 || EditDistance(q, NormalizeText(c.nameEn)) <= 1)
    ensures c in FilteredCountries(countries, searchQuery)
  {
    OneTypoScores(NormalizeText(searchQuery), NormalizeText(c.nameAr), NormalizeText(c.nameEn));
    FilteredCountriesMembers(countries, searchQuery, c);
  }

  lemma OneTypoScores(q: string, normAr: string, normEn: string)
    requires |q| >= 2 && (EditDistance(q, normAr) <= 1 || EditDistance(q, normEn) <= 1)
    ensures MatchScore(q, normAr, normEn).Some?
  {
    FuzzyTierAccepts(q, normAr, normEn);
  }

  /** A query of two or more characters within the threshold of either name
      always matches. */
  lemma FuzzyTierAccepts(q: string, normAr: string, normEn: string)
    requires |q| >= 2
    requires EditDistance(q, normAr) <= Threshold(|q|) || EditDistance(q, normEn) <= Threshold(|q|)
    ensures MatchScore(q, normAr, normEn).Some?
  {
  }

  /** A query that shares no character with either name of a country never
      matches it: it is no substring, the whole names are at least as far
      from it as it is long, and so is every word. */
  lemma DisjointNeverMatches(q: string, normAr: string, normEn: string)
    requires q != []
    requires forall k :: 0 <= k < |q| ==> q[k] !in normAr && q[k] !in normEn
    ensures MatchScore(q, normAr, normEn) == None
  {
    NotIncludedIfCharMissing(normAr, q, 0);
    NotIncludedIfCharMissing(normEn, q, 0);
    if |q| >= 2 {
      EditDistanceDisjoint(q, normAr);
      EditDistanceDisjoint(q, normEn);
      assert Threshold(|q|) < |q|;
      var words := Split(normAr, ' ') + Split(normEn, ' ');
      SplitPiecesInside(normAr, ' ');
      SplitPiecesInside(normEn, ' ');
      forall i | 0 <= i < |words|
        ensures EditDistance(q, words[i]) > 1
      {
        assert words[i] in Split(normAr, ' ') || words[i] in Split(normEn, ' ');
        EditDistanceDisjoint(q, words[i]);
      }
      WordFallbackAccepts(q, words);
    }
  }

  /** A one-character query matches only countries whose normalized names
      contain it: the fuzzy tiers need two characters. */
  lemma SingleCharacterNeedsSubstring(q: string, normAr: string, normEn: string)
    requires |q| == 1
    ensures MatchScore(q, normAr, normEn).Some? <==> Includes(normAr, q) || Includes(normEn, q)
  {
  }

  /** The word fallback scores 40 or 41, and only when whole-name fuzzy
      matching failed and some word of either name is at most one edit from
      the query. */
  lemma WordTierScore(q: string, normAr: string, normEn: string)
    requires var r := MatchScore(q, normAr, normEn); r.Some? && r.value >= 30
    requires EditDistance(q, normAr) > Threshold(|q|) && EditDistance(q, normEn) > Threshold(|q|)
    ensures MatchScore(q, normAr, normEn).value in {40, 41}
    ensures exists w :: (w in Split(normAr, ' ') || w in Split(normEn, ' ')) && EditDistance(q, w) <= 1
  {
    var words := Split(normAr, ' ') + Split(normEn, ' ');
    WordFallbackAccepts(q, words);
    var k :| 0 <= k < |words| && EditDistance(q, words[k]) <= 1;
    assert words[k] in Split(normAr, ' ') || words[k] in Split(normEn, ' ');
  }
}
