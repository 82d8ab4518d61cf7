/** The matcher on a two-country list, Egypt and Saudi Arabia, for an exact
    Arabic query, a one-letter typo, an English prefix and a query with no
    letter in common with either country. */
module MatcherScenario {
  import opened Types
  import opened JsStrings
  import opened Normalize
  import opened Levenshtein
  import opened Ranking
  import opened CountryMatcher

  predicate IsEgypt(c: Country)
  {
    c.nameAr == "مصر" && c.nameEn == "Egypt"
  }

  predicate IsSaudiArabia(c: Country)
  {
    c.nameAr == "السعودية" && c.nameEn == "Saudi Arabia"
  }

  /** `s` lower-cases and folds, character by character, to `t`. */
  predicate FoldsTo(s: string, t: string)
  {
    |s| == |t| && forall k :: 0 <= k < |s| ==> FoldChar(LowerChar(s[k])) == t[k]
  }

  /** A string that lower-cases and folds to a normalized string normalizes
      to that string. */
  lemma NormalizesTo(s: string, t: string)
    requires FoldsTo(s, t) && IsNormalized(t)
    ensures NormalizeText(s) == t
  {
    assert FoldVariants(ToLower(s)) == t;
    NormalizeFolded(s);
  }

  lemma EgyptArabicFolds(s: string)
    requires s == "مصر"
    ensures FoldsTo(s, "مصر") && IsNormalized("مصر")
  {
    var t := "مصر";
    forall k | 0 <= k < 3
      ensures IsCanonical(t[k]) && FoldChar(LowerChar(s[k])) == t[k]
    {
      assert k == 0 || k == 1 || k == 2;
    }
  }

  lemma EgyptEnglishFolds(s: string)
    requires s == "Egypt"
    ensures FoldsTo(s, "egypt") && IsNormalized("egypt")
  {
    var t := "egypt";
    forall k | 0 <= k < 5
      ensures IsCanonical(t[k]) && FoldChar(LowerChar(s[k])) == t[k]
    {
      assert k == 0 || k == 1 || k == 2 || k == 3 || k == 4;
    }
  }

  lemma SaudiArabicFolds(s: string)
    requires s == "السعودية"
    ensures FoldsTo(s, "السعوديه") && IsNormalized("السعوديه")
  {
    var t := "السعوديه";
    forall k | 0 <= k < 8
      ensures IsCanonical(t[k]) && FoldChar(LowerChar(s[k])) == t[k]
    {
      assert k == 0 || k == 1 || k == 2 || k == 3 || k == 4 || k == 5 || k == 6 || k == 7;
    }
  }

  lemma SaudiEnglishFolds(s: string)
    requires s == "Saudi Arabia"
    ensures FoldsTo(s, "saudi arabia") && IsNormalized("saudi arabia")
  {
    var t := "saudi arabia";
    forall k | 0 <= k < 12
      ensures IsCanonical(t[k]) && FoldChar(LowerChar(s[k])) == t[k]
    {
      assert k == 0 || k == 1 || k == 2 || k == 3 || k == 4 || k == 5 || k == 6 || k == 7
          || k == 8 || k == 9 || k == 10 || k == 11;
    }
  }

  /** Egypt's names normalize to themselves, lower-cased. */
  lemma EgyptNormalized(c: Country)
    requires IsEgypt(c)
    ensures NormalizeText(c.nameAr) == "مصر" && NormalizeText(c.nameEn) == "egypt"
  {
    EgyptArabicFolds(c.nameAr);
    NormalizesTo(c.nameAr, "مصر");
    EgyptEnglishFolds(c.nameEn);
    NormalizesTo(c.nameEn, "egypt");
  }

  /** The final teh marbuta of the Arabic name of Saudi Arabia folds to heh,
      and the English name is lower-cased. */
  lemma SaudiArabiaNormalized(c: Country)
    requires IsSaudiArabia(c)
    ensures NormalizeText(c.nameAr) == "السعوديه" && NormalizeText(c.nameEn) == "saudi arabia"
  {
    SaudiArabicFolds(c.nameAr);
    NormalizesTo(c.nameAr, "السعوديه");
    SaudiEnglishFolds(c.nameEn);
    NormalizesTo(c.nameEn, "saudi arabia");
  }

  /** When at most one of two countries matches, the result is that one. */
  lemma FilterPair(a: Country, b: Country, searchQuery: string)
    requires NormalizeText(searchQuery) != []
    requires ScoreOf(NormalizeText(searchQuery), a).None? || ScoreOf(NormalizeText(searchQuery), b).None?
    ensures var q := NormalizeText(searchQuery);
      FilteredCountries([a, b], searchQuery) ==
        (if ScoreOf(q, a).Some? then [a] else []) + (if ScoreOf(q, b).Some? then [b] else [])
  {
    var q := NormalizeText(searchQuery);
    var items := SearchableCountries([a, b]);
    assert items == [items[0], items[1]];
    ItemScoreAgrees(q, [a, b]);
    RankPair(ItemScore(q), items[0], items[1]);
    var ranked := RankMatches(items, ItemScore(q));
    var sa, sb := ScoreOf(q, a), ScoreOf(q, b);
    assert ItemScore(q)(items[0]) == sa && ItemScore(q)(items[1]) == sb;
    assert items[0].country == a && items[1].country == b;
    SortShort(ranked);
    assert FilteredCountries([a, b], searchQuery) == CountriesOf(ranked);
    if sa.Some? {
      assert ranked == [Ranked(a, sa.value)];
      assert CountriesOf(ranked) == [a] == [a] + [];
    } else if sb.Some? {
      assert ranked == [Ranked(b, sb.value)];
      assert CountriesOf(ranked) == [b] == [] + [b];
    } else {
      assert ranked == [];
      assert CountriesOf(ranked) == [] == [] + [];
    }
  }

  /** No character of `q` occurs in either name. */
  predicate SharesNoChar(q: string, normAr: string, normEn: string)
  {
    forall k :: 0 <= k < |q| ==> q[k] !in normAr && q[k] !in normEn
  }

  lemma EgyptQueryMissesSaudiArabia(q: string)
    requires q == "مصر" || q == "مصص"
    ensures SharesNoChar(q, "السعوديه", "saudi arabia")
  {
    forall k | 0 <= k < |q|
      ensures q[k] !in "السعوديه" && q[k] !in "saudi arabia"
    {
      assert k == 0 || k == 1 || k == 2;
    }
  }

  lemma SaudiQueryMissesEgypt(q: string)
    requires q == "saudi"
    ensures SharesNoChar(q, "مصر", "egypt")
  {
    forall k | 0 <= k < |q|
      ensures q[k] !in "مصر" && q[k] !in "egypt"
    {
      assert k == 0 || k == 1 || k == 2 || k == 3 || k == 4;
    }
  }

  lemma UnrelatedQueryMissesBoth(q: string)
    requires q == "zzzzz"
    ensures SharesNoChar(q, "مصر", "egypt") && SharesNoChar(q, "السعوديه", "saudi arabia")
  {
    forall k | 0 <= k < |q|
      ensures q[k] == 'z'
    {
      assert k == 0 || k == 1 || k == 2 || k == 3 || k == 4;
    }
  }

  /** Scores of the two countries for the exact Arabic query. */
  lemma ExactArabicScores(eg: Country, sa: Country, q: string)
    requires IsEgypt(eg) && IsSaudiArabia(sa) && q == "مصر"
    ensures ScoreOf(q, eg) == Some(0) && ScoreOf(q, sa) == None
  {
    EgyptNormalized(eg);
    SaudiArabiaNormalized(sa);
    EgyptQueryMissesSaudiArabia(q);
    DisjointNeverMatches(q, "السعوديه", "saudi arabia");
  }

  /** "مصص" is one substitution away from "مصر". */
  lemma TypoDistance(q: string, name: string)
    requires q == "مصص" && name == "مصر"
    ensures EditDistance(q, name) <= 1
  {
    OneSubstitution(q[..2], q[2], name[2], []);
    assert q[..2] + [q[2]] + [] == q;
    assert q[..2] + [name[2]] + [] == name;
  }

  /** Scores of the two countries for the misspelt Arabic query: Egypt is
      one substitution away, within the threshold of 2. */
  lemma TypoArabicScores(eg: Country, sa: Country, q: string)
    requires IsEgypt(eg) && IsSaudiArabia(sa) && q == "مصص"
    ensures ScoreOf(q, eg).Some? && ScoreOf(q, sa) == None
  {
    EgyptNormalized(eg);
    SaudiArabiaNormalized(sa);
    var egAr, egEn := NormalizeText(eg.nameAr), NormalizeText(eg.nameEn);
    var saAr, saEn := NormalizeText(sa.nameAr), NormalizeText(sa.nameEn);
    TypoDistance(q, egAr);
    OneTypoScores(q, egAr, egEn);
    EgyptQueryMissesSaudiArabia(q);
    DisjointNeverMatches(q, saAr, saEn);
  }

  /** Scores of the two countries for the English prefix query. */
  lemma EnglishPrefixScores(eg: Country, sa: Country, q: string)
    requires IsEgypt(eg) && IsSaudiArabia(sa) && q == "saudi"
    ensures ScoreOf(q, eg) == None && ScoreOf(q, sa) == Some(10)
  {
    EgyptNormalized(eg);
    SaudiArabiaNormalized(sa);
    var egAr, egEn := NormalizeText(eg.nameAr), NormalizeText(eg.nameEn);
    var saAr, saEn := NormalizeText(sa.nameAr), NormalizeText(sa.nameEn);
    SaudiQueryMissesEgypt(q);
    DisjointNeverMatches(q, egAr, egEn);
    PrefixOfSaudiArabia(q, saAr, saEn);
    SubstringTiers(q, saEn);
  }

  /** "saudi" is a prefix of "saudi arabia" and not of "السعوديه". */
  lemma PrefixOfSaudiArabia(q: string, normAr: string, normEn: string)
    requires q == "saudi" && normAr == "السعوديه" && normEn == "saudi arabia"
    ensures StartsWith(normEn, q) && !StartsWith(normAr, q) && normAr != q && normEn != q
  {
    assert normEn[..5] == q;
    assert normAr[0] != q[0];
  }

  /** Scores of the two countries for the unrelated query. */
  lemma UnrelatedScores(eg: Country, sa: Country, q: string)
    requires IsEgypt(eg) && IsSaudiArabia(sa) && q == "zzzzz"
    ensures ScoreOf(q, eg) == None && ScoreOf(q, sa) == None
  {
    EgyptNormalized(eg);
    SaudiArabiaNormalized(sa);
    UnrelatedQueryMissesBoth(q);
    DisjointNeverMatches(q, "مصر", "egypt");
    DisjointNeverMatches(q, "السعوديه", "saudi arabia");
  }

  lemma SaudiQueryFolds(s: string)
    requires s == "Saudi"
    ensures FoldsTo(s, "saudi") && IsNormalized("saudi")
  {
    var t := "saudi";
    forall k | 0 <= k < 5
      ensures IsCanonical(t[k]) && FoldChar(LowerChar(s[k])) == t[k]
    {
      assert k == 0 || k == 1 || k == 2 || k == 3 || k == 4;
    }
  }

  lemma TypoQueryFolds(s: string)
    requires s == "مصص"
    ensures FoldsTo(s, "مصص") && IsNormalized("مصص")
  {
    var t := "مصص";
    forall k | 0 <= k < 3
      ensures IsCanonical(t[k]) && FoldChar(LowerChar(s[k])) == t[k]
    {
      assert k == 0 || k == 1 || k == 2;
    }
  }

  lemma UnrelatedQueryFolds(s: string)
    requires s == "zzzzz"
    ensures FoldsTo(s, "zzzzz") && IsNormalized("zzzzz")
  {
    var t := "zzzzz";
    forall k | 0 <= k < 5
      ensures IsCanonical(t[k]) && FoldChar(LowerChar(s[k])) == t[k]
    {
      assert k == 0 || k == 1 || k == 2 || k == 3 || k == 4;
    }
  }

  /** The query "مصر" finds Egypt alone, by exact match. */
  lemma ExactArabicQuery(eg: Country, sa: Country, searchQuery: string)
    requires IsEgypt(eg) && IsSaudiArabia(sa) && searchQuery == "مصر"
    ensures FilteredCountries([eg, sa], searchQuery) == [eg]
    ensures ScoreOf(NormalizeText(searchQuery), eg) == Some(0)
  {
    EgyptArabicFolds(searchQuery);
    NormalizesTo(searchQuery, "مصر");
    ExactArabicScores(eg, sa, NormalizeText(searchQuery));
    FilterPair(eg, sa, searchQuery);
  }

  /** The query "مصص", one substitution away from "مصر", still finds Egypt
      alone, through whole-name fuzzy matching. */
  lemma TypoArabicQuery(eg: Country, sa: Country, searchQuery: string)
    requires IsEgypt(eg) && IsSaudiArabia(sa) && searchQuery == "مصص"
    ensures FilteredCountries([eg, sa], searchQuery) == [eg]
  {
    TypoQueryFolds(searchQuery);
    NormalizesTo(searchQuery, "مصص");
    TypoArabicScores(eg, sa, NormalizeText(searchQuery));
    FilterPair(eg, sa, searchQuery);
  }

  /** The query "Saudi" finds Saudi Arabia alone, as a prefix of its English
      name. */
  lemma EnglishPrefixQuery(eg: Country, sa: Country, searchQuery: string)
    requires IsEgypt(eg) && IsSaudiArabia(sa) && searchQuery == "Saudi"
    ensures FilteredCountries([eg, sa], searchQuery) == [sa]
    ensures ScoreOf(NormalizeText(searchQuery), sa) == Some(10)
  {
    SaudiQueryFolds(searchQuery);
    NormalizesTo(searchQuery, "saudi");
    EnglishPrefixScores(eg, sa, NormalizeText(searchQuery));
    FilterPair(eg, sa, searchQuery);
  }

  /** The query "zzzzz" finds nothing. */
  lemma UnrelatedQuery(eg: Country, sa: Country, searchQuery: string)
    requires IsEgypt(eg) && IsSaudiArabia(sa) && searchQuery == "zzzzz"
    ensures FilteredCountries([eg, sa], searchQuery) == []
  {
    UnrelatedQueryFolds(searchQuery);
    NormalizesTo(searchQuery, "zzzzz");
    UnrelatedScores(eg, sa, NormalizeText(searchQuery));
    FilterPair(eg, sa, searchQuery);
  }
}
