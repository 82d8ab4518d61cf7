# GLOBAL.EIS — a verified model of the visa lookup's core logic

GLOBAL.EIS is an Arabic-first web tool for travel-visa requirements. The
user picks an origin and a destination country. A hosted generative model
then writes a report (fees, documents, processing times, red flags), and the
page renders it with a few helpers: a currency converter, a Schengen
document checklist and a bank-statement tool.

This project models the parts of that program that decide something, as
Dafny definitions, and proves what they promise:

- **The country matcher** (`components/CountryCombobox.tsx`) has four parts:
  - text normalization (`Normalize`);
  - the Levenshtein edit distance, with its dynamic-programming table kept as
    an array (`Levenshtein`);
  - the five-tier classifier: exact, prefix, substring, fuzzy whole name,
    fuzzy word (`CountryMatcher`);
  - the stable sort by score (`Ranking`).

  A worked example on Egypt and Saudi Arabia is in `MatcherScenario`.
- **The report page** (`components/VisaResult.tsx`) covers several pieces:
  - the text extraction from rendered headings and the section classifier
    that styles them (`VisaResult`);
  - the currency list of the converter;
  - the choice of the extra Schengen or UK tool;
  - the Schengen checklist with its progress bar, as a class whose methods
    update its item list (`Checklist`).
- **The AI service wrapper** (`services/geminiService.ts`) covers the parts
  that do not depend on the model (`GeminiService`):
  - the rules lookup for the destination;
  - the fallback text when the model answers nothing;
  - the extraction and de-duplication of grounding sources;
  - the mapping from failures to user-facing messages.
- **The application shell** (`App.tsx`) is a class with the page's state
  (`App`). It covers theme toggling, swapping the countries, the search, the
  reset, the form check and the classification of error banners.

Shared definitions are in three more modules:

- `Types` holds the records of `types.ts`.
- `JsStrings` models JavaScript's `includes`, `startsWith`, `split` and
  `trim`.
- `Collections` holds `Array.from(new Set(…))`.

Strings are Dafny `string`, that is, sequences of Unicode scalar values.
JavaScript measures strings in UTF-16 code units. The two readings agree on
everything modelled here:

- Every character that `normalizeText` keeps lies in the Basic Multilingual
  Plane.
- Any character outside that plane is removed by the same replace in both
  readings.
- Every keyword searched with `includes` is made of BMP characters.

Lower-casing is the one place where the model and JavaScript part ways; see
`Normalize.LowerChar` under "## Left out".

## Model

| member | source | states |
|---|---|---|
| JsStrings.IncludesIffOccurs | components/CountryCombobox.tsx:125 | `includes` holds exactly when the needle occurs at some position of the text |
| JsStrings.IncludesLength | components/CountryCombobox.tsx:125 | a needle longer than the text is never contained; the empty needle always is |
| JsStrings.IncludesSameLength | components/CountryCombobox.tsx:115-125 | between strings of equal length, containment is equality |
| JsStrings.Split | components/CountryCombobox.tsx:143 | `split(' ')` gives at least one piece, no piece holds a space, and joining the pieces with spaces gives back the name |
| JsStrings.SplitPiecesInside | components/CountryCombobox.tsx:143 | every character of a word occurs in the name it was split from |
| JsStrings.Trim | components/CountryCombobox.tsx:25 | the trimmed string is empty or starts and ends with a non-space |
| JsStrings.TrimStartSuffix | components/CountryCombobox.tsx:25 | dropping leading white space leaves the longest suffix that does not start with white space, and only white space was dropped |
| JsStrings.TrimEndPrefix | components/CountryCombobox.tsx:25 | dropping trailing white space leaves the longest prefix that does not end with white space, and only white space was dropped |
| JsStrings.TrimSlice | components/CountryCombobox.tsx:25 | the trimmed string is a contiguous slice of the input, with only white space cut away on either side |
| JsStrings.TrimUntrimmed | components/CountryCombobox.tsx:25 | a string with no white space at either end is its own trim |
| Normalize.ToLower | components/CountryCombobox.tsx:18 | lower-casing keeps the length and maps each character on its own |
| Normalize.LowerChar | components/CountryCombobox.tsx:18 | no upper-case Latin letter survives, and every other character is unchanged |
| Normalize.FoldVariants | components/CountryCombobox.tsx:19-23 | the five replacements leave no alef, teh-marbuta, alef-maksura, waw or yeh variant, keep the length, act character by character, and change nothing in text without variants |
| Normalize.FoldChar | components/CountryCombobox.tsx:19-23 | a folded character is never a variant, a non-variant is left alone, and no Latin capital is produced |
| Normalize.StripDisallowed | components/CountryCombobox.tsx:24 | only word characters, white space and Arabic-block characters survive, each taken from the input, and text made only of those is unchanged |
| Normalize.StripDisallowedChar | components/CountryCombobox.tsx:24 | one character survives exactly when it is a word character, white space or in the Arabic block |
| Normalize.StripDisallowedAppend | components/CountryCombobox.tsx:24 | stripping splits over concatenation, so every allowed character survives, in order; with the one-character case this fixes the result completely |
| Normalize.NormalizeText | components/CountryCombobox.tsx:16-26 | the result is normalized: only canonical characters, and no white space at either end |
| Normalize.NormalizeFixesNormalized | components/CountryCombobox.tsx:16-26 | a string is left unchanged by normalization exactly when it is already normalized |
| Normalize.NormalizeIdempotent | components/CountryCombobox.tsx:16-26 | normalizing twice gives the same as normalizing once |
| Normalize.NormalizeFolded | components/CountryCombobox.tsx:16-26 | when lower-casing and folding already give a normalized string, stripping and trimming change nothing more |
| Levenshtein.Min3 | components/CountryCombobox.tsx:40-44 | `Math.min` of three values is one of them and no larger than any |
| Levenshtein.EditDistance | components/CountryCombobox.tsx:28-49 | the recursive reference definition of the edit distance that the table method is proved against; its properties are the `EditDistance*` lemmas below |
| Levenshtein.CellRecurrence | components/CountryCombobox.tsx:39-44 | each inner cell of the table is the cheapest of deletion, insertion and substitution (cost 0 on equal characters) |
| Levenshtein.CellBorder | components/CountryCombobox.tsx:34-35 | the first row and the first column of the table count up from 0 |
| Levenshtein.LevenshteinDistance | components/CountryCombobox.tsx:28-49 | the table-filling loops return the edit distance between the two strings, including the early returns for an empty string |
| Levenshtein.EditDistanceEmpty | components/CountryCombobox.tsx:29-30 | the distance from or to the empty string is the other string's length |
| Levenshtein.EditDistanceZeroIff | components/CountryCombobox.tsx:28-49 | the distance is zero exactly when the strings are equal |
| Levenshtein.EditDistanceBounds | components/CountryCombobox.tsx:28-49 | the distance is at least the difference of the lengths and at most their sum |
| Levenshtein.EditDistanceDisjoint | components/CountryCombobox.tsx:28-49 | strings with no character in common are at least as far apart as the longer one is long |
| Levenshtein.EditDistanceCommonSuffix | components/CountryCombobox.tsx:28-49 | appending the same suffix to both strings never increases the distance |
| Levenshtein.OneSubstitution | components/CountryCombobox.tsx:43 | one substituted character costs at most 1 |
| Levenshtein.OneInsertion | components/CountryCombobox.tsx:42 | one inserted character costs at most 1 |
| Levenshtein.OneDeletion | components/CountryCombobox.tsx:41 | one deleted character costs at most 1 |
| Levenshtein.KittenSitting | components/CountryCombobox.tsx:28-49 | the textbook pair "kitten"/"sitting" is at distance 3 |
| Ranking.InsertMultiset | components/CountryCombobox.tsx:162 | one insertion step of the sort adds exactly the inserted entry |
| Ranking.InsertSorted | components/CountryCombobox.tsx:162 | inserting into a sequence sorted by score keeps it sorted |
| Ranking.InsertStable | components/CountryCombobox.tsx:162 | inserting keeps the relative order of entries with equal score, the new entry going first among its equals |
| Ranking.SortPermutes | components/CountryCombobox.tsx:162 | sorting by score is a permutation of the matches |
| Ranking.SortSorts | components/CountryCombobox.tsx:162 | the sorted matches are in non-decreasing score order |
| Ranking.SortStable | components/CountryCombobox.tsx:162 | for every score, the matches with that score keep their original order (`Array.prototype.sort` is stable) |
| Ranking.SortShort | components/CountryCombobox.tsx:162 | zero or one match is left as it is |
| Ranking.CountriesOf | components/CountryCombobox.tsx:163 | the final `map` keeps one country per ranked entry, in order |
| Ranking.SortKeepsScores | components/CountryCombobox.tsx:162 | sorting does not detach a country from its score |
| Ranking.CountriesOfWithScore | components/CountryCombobox.tsx:161-163 | selecting a score and then projecting to countries is the same as projecting and then selecting |
| Ranking.CountriesWithScoreMembers | components/CountryCombobox.tsx:161 | a country is among those with score k exactly when it is in the list and scores k |
| CountryMatcher.BestWordDist | components/CountryCombobox.tsx:144-150 | the loop over the words computes the best word distance: 100 unless some word within two characters of the query's length is closer |
| CountryMatcher.BestWordDistanceIsMinimum | components/CountryCombobox.tsx:144-150 | the best word distance is at most 100, no greater than the distance to any candidate word, and either 100 or the distance to one candidate |
| CountryMatcher.WordFallbackAccepts | components/CountryCombobox.tsx:143-155 | the word tier accepts exactly when some word is within one edit of the query; such a word is always a candidate |
| CountryMatcher.MatchScore | components/CountryCombobox.tsx:108-159 | score 0 exactly on an exact match; a score of 20 or less exactly when a name contains the query, and then it is 0, 10 or 20; any higher score needs a query of two or more characters and is at least 30 |
| CountryMatcher.SubstringTiers | components/CountryCombobox.tsx:115-128 | an exact match is a prefix match, and a prefix match is a substring match, so the tiers are nested |
| CountryMatcher.SearchableCountries | components/CountryCombobox.tsx:95-101 | one searchable entry per country, in order, carrying the country and its normalized names |
| CountryMatcher.ItemCountries | components/CountryCombobox.tsx:111 | taking back the country of each entry keeps order and length |
| CountryMatcher.FilteredCountries | components/CountryCombobox.tsx:104-165 | the matcher's result list; what it holds and in which order is stated by `CountryMatcher.FilteredCountriesCorrect`, `FilteredCountriesMembers` and `EmptyQueryKeepsAll` |
| CountryMatcher.SearchableCountriesKeepCountries | components/CountryCombobox.tsx:95-111 | the precomputed entries give back exactly the original countries |
| CountryMatcher.ItemScoreAgrees | components/CountryCombobox.tsx:95-159 | scoring an entry is scoring its country with freshly normalized names |
| CountryMatcher.RankMatchesAgree | components/CountryCombobox.tsx:109-161 | every kept entry carries its country's score |
| CountryMatcher.RankMatchesSelects | components/CountryCombobox.tsx:109-161 | for every score, the kept entries with that score are the countries with that score, in list order |
| CountryMatcher.RankPair | components/CountryCombobox.tsx:109-161 | on a two-country list the kept entries are those two in order, each kept only when it matches |
| CountryMatcher.FilteredRanked | components/CountryCombobox.tsx:104-165 | for a non-empty query the result is the countries of a score-sorted ranking that agrees with the scores |
| CountryMatcher.FilteredCountriesCorrect | components/CountryCombobox.tsx:104-165 | for a non-empty query every result matches, scores never decrease along the result, and for each score the countries with that score appear in their list order |
| CountryMatcher.FilteredCountriesMembers | components/CountryCombobox.tsx:104-165 | a country is in the result exactly when it is in the list and matches the normalized query |
| CountryMatcher.EmptyQueryKeepsAll | components/CountryCombobox.tsx:105-107 | a query that normalizes to nothing returns the whole list unchanged |
| CountryMatcher.BetterScoreFirst | components/CountryCombobox.tsx:162 | a country with a strictly better score always precedes one with a worse score |
| CountryMatcher.SubstringMatchesFirst | components/CountryCombobox.tsx:115-162 | a country whose name contains the query is found with score 0, 10 or 20 and precedes every fuzzy match |
| CountryMatcher.SubstringScore | components/CountryCombobox.tsx:115-128 | a name containing the query always earns a substring-tier score |
| CountryMatcher.ExactMatchRanksFirst | components/CountryCombobox.tsx:115-118 | when some country's name equals the query, the first result is an exact match |
| CountryMatcher.OneTypoStillFound | components/CountryCombobox.tsx:130-141 | for a query of two or more characters, a name one edit away is always found |
| CountryMatcher.OneTypoScores | components/CountryCombobox.tsx:130-141 | a name one edit away from a query of two or more characters always scores |
| CountryMatcher.FuzzyTierAccepts | components/CountryCombobox.tsx:130-141 | a name within the adaptive threshold `floor(0.4 * length) + 1` always scores |
| CountryMatcher.DisjointNeverMatches | components/CountryCombobox.tsx:108-159 | a query sharing no character with either name never matches, whatever its length |
| CountryMatcher.SingleCharacterNeedsSubstring | components/CountryCombobox.tsx:130 | a one-character query matches only by containment, since fuzzy matching needs two characters |
| CountryMatcher.WordTierScore | components/CountryCombobox.tsx:143-155 | a match outside the substring and whole-name tiers scores 40 or 41 and has a word of one of the names within one edit of the query |
| MatcherScenario.ExactArabicQuery | components/CountryCombobox.tsx:104-165 | on the list Egypt, Saudi Arabia the query "مصر" finds Egypt alone, with score 0 |
| MatcherScenario.TypoArabicQuery | components/CountryCombobox.tsx:104-165 | the typo "مصص" still finds Egypt alone |
| MatcherScenario.EnglishPrefixQuery | components/CountryCombobox.tsx:104-165 | "Saudi" finds Saudi Arabia alone, as a prefix with score 10 |
| MatcherScenario.UnrelatedQuery | components/CountryCombobox.tsx:104-165 | "zzzzz" finds nothing |
| Collections.FirstIndex | components/VisaResult.tsx:249 | the position found holds the value and no earlier position does |
| Collections.DedupCorrect | components/VisaResult.tsx:249 | `Array.from(new Set(s))` keeps every value of `s` and nothing else, once each, ordered by first occurrence |
| Collections.DedupDistinct | components/VisaResult.tsx:249 | a sequence without repeats is its own set |
| Collections.DedupPrefix | components/VisaResult.tsx:249 | values added later never move the values already in the set |
| VisaResult.ExtractTextIsLeaves | components/VisaResult.tsx:16-24 | the text of a node is the concatenation of its string leaves, left to right |
| VisaResult.ExtractText | components/VisaResult.tsx:16-24 | the heading text helper; its meaning is stated by `VisaResult.ExtractTextIsLeaves`, `FragmentSplits` and `ExtractTextBasics` |
| VisaResult.FragmentSplits | components/VisaResult.tsx:19 | the text of a concatenated list of nodes is the concatenation of their texts |
| VisaResult.ExtractTextBasics | components/VisaResult.tsx:16-24 | a string is its own text; an element gives its child's text; falsy values, childless elements and other values give "" |
| VisaResult.StyleOf | components/VisaResult.tsx:27-61 | each section type has its own style record, tagged with that type |
| VisaResult.GetSectionConfig | components/VisaResult.tsx:27-61 | a chosen style is always the style of its own type |
| VisaResult.MentionsIff | components/VisaResult.tsx:28-52 | the keyword lists of the four section types are exactly the keywords the classifier tests |
| VisaResult.SectionConfigNoneIff | components/VisaResult.tsx:27-61 | no style is chosen exactly when the heading mentions no keyword of any type |
| VisaResult.SectionConfigChoosesFirstMentioned | components/VisaResult.tsx:27-61 | the chosen type is mentioned by the heading, and no type tested before it is |
| VisaResult.FeesWins | components/VisaResult.tsx:28-35 | a heading that mentions fees is a fees section whatever else it mentions |
| VisaResult.NonEmpty | components/VisaResult.tsx:249 | `filter(Boolean)` keeps exactly the non-empty codes |
| VisaResult.NonEmptyOne | components/VisaResult.tsx:249 | one code is kept exactly when it is not empty |
| VisaResult.NonEmptyAppend | components/VisaResult.tsx:249 | the filter splits over concatenation, so the kept codes stay in their order |
| VisaResult.CurrencyOptions | components/VisaResult.tsx:249 | the converter's currency list; what it holds and in which order is stated by `VisaResult.CurrencyOptionsCorrect` |
| VisaResult.CurrencyOptionsCorrect | components/VisaResult.tsx:249 | the converter offers USD first and EUR second. A set origin currency other than those comes third. A set destination currency that is new comes last. There are between two and four codes, exactly the non-empty ones, none twice |
| VisaResult.CurrencyMembers | components/VisaResult.tsx:249 | USD and EUR lead, and the list holds exactly the non-empty codes, once each |
| VisaResult.CurrencyOriginThird | components/VisaResult.tsx:249 | a set origin currency other than USD and EUR is the third option |
| VisaResult.CurrencyDestinationLast | components/VisaResult.tsx:249 | a set destination currency that is not already offered is the last option |
| VisaResult.ExtraTools | components/VisaResult.tsx:668-669 | the checklist is offered exactly for Schengen destinations, and the bank-statement tool exactly for the United Kingdom |
| VisaResult.SchengenCodesDistinct | components/VisaResult.tsx:107-111 | the Schengen list has 29 codes, none repeated |
| VisaResult.AtMostOneExtraTool | components/VisaResult.tsx:721-724 | no destination gets both extra tools |
| Checklist.CheckedCount | components/VisaResult.tsx:152 | no more items are checked than there are items |
| Checklist.ToggleChecked | components/VisaResult.tsx:133-137 | the list keeps its length, and every item keeps its id and text; see `Checklist.ToggleCheckedOnlyMatching` for the flag |
| Checklist.ToggleShowNote | components/VisaResult.tsx:139-144 | the list keeps its length, and every item keeps its id and text; see `Checklist.ToggleShowNoteOnlyMatching` for the note flag |
| Checklist.SetNote | components/VisaResult.tsx:146-150 | the list keeps its length, and every item keeps its id and text; see `Checklist.SetNoteOnlyMatching` for the note |
| Checklist.ProgressOf | components/VisaResult.tsx:152 | the progress percentage; its range and extremes are stated by `Checklist.ProgressBounds` and `ProgressExtremes` |
| Checklist.RoundHalfUp | components/VisaResult.tsx:152 | `Math.round` gives the integer nearest the ratio, halves rounded up |
| Checklist.ToggleCheckedOnlyMatching | components/VisaResult.tsx:133-137 | toggling flips `checked` on the items with the given id, and changes nothing else |
| Checklist.ToggleShowNoteOnlyMatching | components/VisaResult.tsx:139-144 | toggling the note flips `showNote` on the items with the given id, and changes nothing else |
| Checklist.SetNoteOnlyMatching | components/VisaResult.tsx:146-150 | updating the note replaces `note` on the items with the given id, and changes nothing else |
| Checklist.ToggleCheckedTwice | components/VisaResult.tsx:133-137 | toggling the same item twice restores the list |
| Checklist.ToggleShowNoteTwice | components/VisaResult.tsx:139-144 | showing and hiding the same note restores the list |
| Checklist.SetNoteLastWins | components/VisaResult.tsx:146-150 | of two note updates to the same item, the later one wins |
| Checklist.UnknownIdNoChange | components/VisaResult.tsx:133-150 | an id on no item changes nothing |
| Checklist.CheckedCountSame | components/VisaResult.tsx:152 | lists that agree on every `checked` flag have the same count |
| Checklist.CheckedCountAll | components/VisaResult.tsx:152 | the count is the length exactly when all items are checked, and 0 exactly when none is |
| Checklist.ToggleCheckedCount | components/VisaResult.tsx:133-137 | with unique ids, toggling an item moves the checked count by exactly one, up or down as the item was unchecked or checked |
| Checklist.NotesKeepCount | components/VisaResult.tsx:139-150 | note changes never change the checked count |
| Checklist.RoundHalfUpUnique | components/VisaResult.tsx:152 | the rounded value is the only integer within half a unit of the ratio |
| Checklist.ProgressBounds | components/VisaResult.tsx:152 | the progress percentage is at most 100 |
| Checklist.ProgressExtremes | components/VisaResult.tsx:152 | on a list of fewer than 200 items, progress is 100 exactly when every item is checked and 0 exactly when none is |
| Checklist.InitialChecklist | components/VisaResult.tsx:113-131 | the checklist starts with 16 items numbered 1 to 16, none checked, with empty hidden notes and progress 0 |
| Checklist.SchengenChecklist.constructor | components/VisaResult.tsx:113-131 | a new checklist holds the 16 initial items |
| Checklist.SchengenChecklist.ToggleItem | components/VisaResult.tsx:133-137 | the item list becomes its toggled version, and the 16 unique ids are kept |
| Checklist.SchengenChecklist.ToggleNoteVisibility | components/VisaResult.tsx:139-144 | the item list becomes the version with that note shown or hidden, and the 16 unique ids are kept |
| Checklist.SchengenChecklist.UpdateNote | components/VisaResult.tsx:146-150 | the item list becomes the version with that note replaced, and the 16 unique ids are kept |
| Checklist.SchengenChecklist.Progress | components/VisaResult.tsx:152 | the progress bar shows at most 100, 100 exactly when every item is checked, 0 exactly when none is |
| GeminiService.SpecialInstructions | services/geminiService.ts:272-278 | the rules text is the destination's entry when there is one, and "" otherwise |
| GeminiService.MexicoOverrideInert | services/geminiService.ts:275-278 | the Mexico branch has no effect: the `MX_SPECIFIC` entry never changes another destination's rules |
| GeminiService.MarkdownOf | services/geminiService.ts:358 | the report is never empty: the model's text when it has any, the apology text otherwise |
| GeminiService.LinksOf | services/geminiService.ts:364-369 | no more sources than grounding chunks |
| GeminiService.LinksOfOne | services/geminiService.ts:364-369 | one chunk gives its source exactly when its web entry has a title and a uri, and gives nothing otherwise |
| GeminiService.LinksOfAppend | services/geminiService.ts:364-369 | the filter-and-map splits over concatenation, so the sources keep the order of their chunks |
| GeminiService.SourcesOf | services/geminiService.ts:362-369 | the sources of the grounding metadata, none when it is missing; see `GeminiService.NoMetadataNoSources` and the `LinksOf` lemmas |
| GeminiService.LinksOfMembers | services/geminiService.ts:364-369 | a source is listed exactly when some chunk has a web entry with that non-empty title and non-empty uri |
| GeminiService.LinksOfNonEmpty | services/geminiService.ts:364-369 | every listed source has a title and a url |
| GeminiService.UrlsOf | services/geminiService.ts:371 | the urls of the sources, in order |
| GeminiService.MapSet | services/geminiService.ts:371 | one `Map.set`; its effect is stated by `GeminiService.MapSetUrls` and `MapSetEntries` |
| GeminiService.UniqueSources | services/geminiService.ts:371 | the de-duplicated sources; stated by `GeminiService.UniqueSourcesUrls`, `UniqueSourcesLastWins` and `UniqueSourcesDistinct` |
| GeminiService.LastWithUrl | services/geminiService.ts:371 | the entry picked for a url is one of the sources and has that url |
| GeminiService.MapSetUrls | services/geminiService.ts:371 | a `Map.set` with a url already present keeps the key order, and with a new url appends it |
| GeminiService.MapSetEntries | services/geminiService.ts:371 | after `Map.set`, the map holds the new item and otherwise only old entries with other urls |
| GeminiService.UniqueSourcesUrls | services/geminiService.ts:371 | the de-duplicated sources list each url once, in order of first occurrence |
| GeminiService.UniqueSourcesLastWins | services/geminiService.ts:371 | the source kept for each url is the last one with that url |
| GeminiService.UniqueSourcesDistinct | services/geminiService.ts:371 | no url is listed twice, and every url of the input is still listed |
| GeminiService.ResponseWellFormed | services/geminiService.ts:358-377 | a response always has a non-empty report, and its sources have distinct urls and non-empty titles and urls |
| GeminiService.NoMetadataNoSources | services/geminiService.ts:362-369 | with no grounding metadata the response lists no sources |
| GeminiService.BuildResponse | services/geminiService.ts:358-377 | the response record; its well-formedness is stated by `GeminiService.ResponseWellFormed` |
| GeminiService.ErrorMessageCases | services/geminiService.ts:384-390 | a failure mentioning `429` becomes the quota message; otherwise `API key` becomes the key message; otherwise `network` becomes the connection message; anything else, or no message, becomes the generic message |
| GeminiService.ErrorMessage | services/geminiService.ts:384-390 | the thrown message is always one of the four fixed texts, and the generic one when the failure has no message |
| App.FirstCategory | App.tsx:203-246 | the banners are tested in order connection, key, busy, safety, generic: each is chosen exactly when its test holds and no earlier one does |
| App.GetErrorUI | App.tsx:203-246 | the connection banner exactly when a connection word occurs; the key banner exactly when a key word occurs and no connection word; the busy banner, then the safety banner, likewise; the generic banner exactly when no test holds |
| App.FixOnlyReclassifiesGeneric | App.tsx:222-229 | the corrected busy test changes a banner only to the server-busy one, and only from the generic or the safety banner |
| App.NetworkMessageBanner | App.tsx:205-211 | the service's connection message shows the connection banner |
| App.ApiKeyMessageBanner | App.tsx:214-220 | the service's key message shows the authorization banner |
| App.FetchFailedMessageBanner | App.tsx:240-245 | the service's generic failure message shows the generic banner |
| App.QuotaMessageWording | services/geminiService.ts:387 | the quota message says "تجاوز الحد" |
| App.QuotaLacksBusyWord | App.tsx:223 | the quota message does not contain the word the busy test looks for |
| App.QuotaMessageBanner | App.tsx:203-246 | as written, the quota message shows the generic banner |
| App.QuotaMessageBannerFixed | App.tsx:223-229 | with the corrected busy test, the quota message shows the server-busy banner |
| App.ServiceFailureBanner | App.tsx:203-246 | a service failure shows the connection banner exactly for the connection message, the authorization banner exactly for the key message, and never the server-busy banner |
| App.ServiceFailureBannerFixed | App.tsx:223-229 | with the corrected busy test, a service failure shows the server-busy banner exactly when it mentioned `429` |
| App.Flip | App.tsx:169-171 | toggling always changes the theme |
| App.FlipInvolution | App.tsx:169-171 | toggling twice restores the theme |
| App.FormValiditySymmetric | App.tsx:248 | the form is valid for a pair of countries exactly when it is valid for the swapped pair |
| App.IsFormValid | App.tsx:248 | a valid form has two countries chosen, and their codes differ |
| App.FailureText | App.tsx:188-189 | the error shown is the failure's message when it has one, and is never empty |
| App.AppState.constructor | App.tsx:139-147 | the page starts with no countries, no result, no error, not loading and the light theme |
| App.AppState.CanSearch | App.tsx:336-337 | the search button is enabled exactly when the form is valid and no search is running |
| App.AppState.ErrorBanner | App.tsx:385-386 | a banner is shown exactly when there is a non-empty error, and it is the banner `getErrorUI` picks for that error |
| App.AppState.ToggleTheme | App.tsx:169-171 | the theme flips, and nothing else changes |
| App.AppState.HandleSwap | App.tsx:173-176 | the two countries change places, the form stays as valid as it was, and nothing else changes |
| App.AppState.HandleSearch | App.tsx:178-193 | without both countries nothing changes; otherwise loading ends and the result or the error replaces whatever was shown before |
| App.AppState.HandleReset | App.tsx:195-201 | the countries, the result and the error are cleared, so the form is invalid and no banner shows |
| App.SwapTwice | App.tsx:173-176 | swapping twice gives back the chosen countries |

## Left out

- The model call itself has no Dafny counterpart: the client set-up, the prompt text, the model settings and the network round trip. Whatever the call does, including failing before it is sent, reaches the model only as its outcome. `GeminiService.BuildResponse` takes the model's text and grounding chunks as parameters. `App.AppState.HandleSearch` takes the call's outcome as a parameter.
- Time: `generatedAt` (`new Date().toISOString()`) is a parameter of `GeminiService.BuildResponse`.
- The 300 ms debounce of the query, and React's state batching, are not modelled. Each `App.AppState` method applies its updates in order, and the page between them is not observed.
- The scroll in `handleReset` and the `stopPropagation` in `toggleNoteVisibility` are browser effects and are not modelled.
- Rendering, theming CSS classes, icons and markdown styling are not modelled. Only the banner's title and class string are kept.
- Persistence of the theme in `localStorage` is not modelled.
- The country list and the `VISA_RULES` texts are data. They are parameters (a `seq<Country>` and a `map`), so the model does not pin down their contents.
- The rules lookup treats `VISA_RULES` as a plain map. Inherited object keys such as `constructor` are not modelled.
- Normalize.LowerChar: lower-cases only the Latin letters A–Z; every other character is left as it is. JavaScript's `toLowerCase` maps other capitals too. Almost all of them lower-case to letters outside `\w`, white space and the Arabic block, so the strip removes them either way and the result is the same. Two characters are known to differ:
  - U+0130 (capital I with dot above) lower-cases in JavaScript to "i" plus U+0307. The strip then keeps the "i", so `normalizeText("İran")` is "iran", while the model drops the character and gives "ran".
  - U+212A (the Kelvin sign) lower-cases in JavaScript to "k", which the strip keeps; the model drops it.

  A name or query that contains either character can therefore normalize, and match, differently in the model.
- Strings are sequences of Unicode scalar values rather than UTF-16 code units. For the reasons given above, this changes no result of the matcher or of the keyword tests, apart from the two lower-casing differences just listed.
- The `console.error` logging in the service's failure path (services/geminiService.ts:382) is not modelled. It is output only and changes no state or result.
- The currency converter's arithmetic and the bank-statement tool work on floating-point numbers and are not modelled, nor is the document wallet. Only the converter's currency list and the choice of tool are modelled.
- The markdown post-processing by regular expressions on the report is not modelled.
- VisaResult.ExtractText: values are grouped into falsy values, strings, arrays, objects with `props.children`, and anything else. JavaScript's other truthy values (numbers, `true`) fall into the last group and give "".
- Checklist.RoundHalfUp: computes `Math.round(k / n * 100)` exactly, with rationals. The floating-point computation agrees for the 16-item list, whose ratios are multiples of 6.25, exact in binary.
- Checklist.ProgressExtremes: is stated for lists of fewer than 200 items. With 200 or more items, one unchecked item can round to 100. The class keeps exactly 16 items.
- Levenshtein.LevenshteinDistance: the table is a Dafny two-dimensional array of naturals. JavaScript numbers and `Array(...).fill(null)` are not modelled.
- GeminiService.UniqueSources: models `Array.from(new Map(...).values())` as a left-to-right fold of `Map.set` over a sequence of entries. Hash ordering does not arise, because JavaScript maps iterate in insertion order.

## Findings

| source | as written | input that shows it | evidently intended | confidence | as-written member | corrected member |
|---|---|---|---|---|---|---|
| App.tsx:223 with services/geminiService.ts:387 | the server-busy banner looks for "تجاوزت الحد" (the verb with feminine suffix), but the service rewrites every rate-limit failure to "تجاوز الحد المسموح للطلبات." | a failure whose message contains `429`, shown to the user as "تجاوز الحد المسموح للطلبات." | a rate-limited request shows the "الخادم مشغول" (server busy) banner | not executed | App.QuotaMessageBanner | App.QuotaMessageBannerFixed |

Two identifiers in the service are never declared, so the model call cannot run as written:

- services/geminiService.ts:6 passes `apiKey` to `new GoogleGenerativeAI`.
- services/geminiService.ts:349 calls `ai.models.generateContent`, but the client is bound to `genAI`.

Unless a bundler defines these names, a lookup fails when the module loads, or ends in the `catch` with the generic message. The failure above therefore cannot arise until those two lines are corrected. The model's properties do not depend on this. `App.AppState.HandleSearch` and `GeminiService.BuildResponse` take the call's outcome as a parameter, so every outcome is covered.
