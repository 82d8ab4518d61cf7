/** The pure processing around the model call in services/geminiService.ts:
    the per-destination instructions, the fallback answer text, the web
    sources extracted from the grounding metadata and deduplicated by URL,
    and the Arabic error message raised on failure. */
module GeminiService {
  import opened Types
  import opened JsStrings
  import opened Collections

  // ---------------------------------------------------------------------
  // VISA_RULES lookup

  /** `VISA_RULES[destCode] || ""`: the dictionary is a parameter. */
  function SpecialInstructions(rules: map<string, string>, destCode: string): (r: string)
    ensures r != "" ==> destCode in rules && r == rules[destCode]
    ensures destCode in rules ==> r == rules[destCode]
  {
    var instructions := if destCode in rules && rules[destCode] != "" then rules[destCode] else "";
    if destCode == "MX" && "MX_SPECIFIC" in rules && rules["MX_SPECIFIC"] != "" then
      // the Mexico override appends nothing
      instructions
    else
      instructions
  }

  /** The `MX_SPECIFIC` entry has no effect on what any destination,
      Mexico included, receives. */
  lemma MexicoOverrideInert(rules: map<string, string>, destCode: string)
    requires destCode != "MX_SPECIFIC"
    ensures SpecialInstructions(rules, destCode) == SpecialInstructions(rules - {"MX_SPECIFIC"}, destCode)
  {
  }

  // ---------------------------------------------------------------------
  // Answer text

  const NotFoundMessage: string := "عذراً، لم أتمكن من العثور على المعلومات المطلوبة بدقة. يرجى مراجعة السفارة مباشرة."

  /** `response.text || <fallback>`: `None` is a missing text. */
  function MarkdownOf(text: Option<string>): (r: string)
    ensures r != ""
    ensures text.Some? && text.value != "" ==> r == text.value
    ensures text.None? || text.value == "" ==> r == NotFoundMessage
  {
    if text.Some? && text.value != "" then text.value else NotFoundMessage
  }

  // ---------------------------------------------------------------------
  // Sources

  /** `chunk.web`, whose `uri` and `title` may each be absent. */
  datatype Web = Web(uri: Option<string>, title: Option<string>)

  datatype GroundingChunk = GroundingChunk(web: Option<Web>)

  /** A JavaScript-truthy optional string: present and not empty. */
  predicate Truthy(s: Option<string>)
  {
    s.Some? && s.value != ""
  }

  /** `chunk.web?.uri && chunk.web?.title`. */
  predicate HasLink(chunk: GroundingChunk)
  {
    chunk.web.Some? && Truthy(chunk.web.value.uri) && Truthy(chunk.web.value.title)
  }

  /** The filter-and-map over the grounding chunks. */
  function LinksOf(chunks: seq<GroundingChunk>): (r: seq<Source>)
    ensures |r| <= |chunks|
  {
    if chunks == [] then []
    else
      var c := chunks[0];
      (if HasLink(c) then [Source(c.web.value.title.value, c.web.value.uri.value)] else [])
        + LinksOf(chunks[1..])
  }

  /** `groundingChunks?.filter(...).map(...) || []`: missing metadata gives
      no sources. */
  function SourcesOf(chunks: Option<seq<GroundingChunk>>): seq<Source>
  {
    if chunks.Some? then LinksOf(chunks.value) else []
  }

  /** A source is listed exactly when some chunk carries a non-empty title
      and URL equal to it. */
  lemma {:induction false} LinksOfMembers(chunks: seq<GroundingChunk>, s: Source)
    ensures s in LinksOf(chunks) <==>
      exists i :: 0 <= i < |chunks| && HasLink(chunks[i])
                  && chunks[i].web.value.title.value == s.title && chunks[i].web.value.uri.value == s.url
    decreases |chunks|
  {
    if chunks != [] {
      LinksOfMembers(chunks[1..], s);
      if s in LinksOf(chunks[1..]) {
        var i :| 0 <= i < |chunks[1..]| && HasLink(chunks[1..][i])
                 && chunks[1..][i].web.value.title.value == s.title && chunks[1..][i].web.value.uri.value == s.url;
        assert chunks[i + 1] == chunks[1..][i];
      }
      if exists i :: 0 <= i < |chunks| && HasLink(chunks[i])
                  && chunks[i].web.value.title.value == s.title && chunks[i].web.value.uri.value == s.url {
        var i :| 0 <= i < |chunks| && HasLink(chunks[i])
                 && chunks[i].web.value.title.value == s.title && chunks[i].web.value.uri.value == s.url;
        if i > 0 {
          assert chunks[1..][i - 1] == chunks[i];
        }
      }
    }
  }

  /** One chunk gives its source exactly when it carries a title and a URL. */
  lemma LinksOfOne(c: GroundingChunk)
    ensures LinksOf([c]) ==
      if HasLink(c) then [Source(c.web.value.title.value, c.web.value.uri.value)] else []
  {
  }

  /** The filter-and-map keeps order: it splits over concatenation. */
  lemma {:induction false} LinksOfAppend(a: seq<GroundingChunk>, b: seq<GroundingChunk>)
    ensures LinksOf(a + b) == LinksOf(a) + LinksOf(b)
    decreases |a|
  {
    if a == [] {
      assert a + b == b;
    } else {
      var c := a[0];
      var head := if HasLink(c) then [Source(c.web.value.title.value, c.web.value.uri.value)] else [];
      assert (a + b)[0] == c && (a + b)[1..] == a[1..] + b;
      assert LinksOf(a + b) == head + LinksOf(a[1..] + b);
      LinksOfAppend(a[1..], b);
      assert LinksOf(a) == head + LinksOf(a[1..]);
    }
  }

  /** Every extracted source has a title and a URL. */
  lemma {:induction false} LinksOfNonEmpty(chunks: seq<GroundingChunk>)
    ensures forall s :: s in LinksOf(chunks) ==> s.title != "" && s.url != ""
    decreases |chunks|
  {
    if chunks != [] {
      LinksOfNonEmpty(chunks[1..]);
    }
  }

  /** `map(item => item.url)`. */
  function UrlsOf(s: seq<Source>): (r: seq<string>)
    ensures |r| == |s| && forall i :: 0 <= i < |s| ==> r[i] == s[i].url
  {
    seq(|s|, i requires 0 <= i < |s| => s[i].url)
  }

  /** `map.set(item.url, item)` on a `Map` whose entries are kept in
      insertion order: a known key keeps its place and takes the new
      value, a new key goes last. */
  function MapSet(entries: seq<Source>, item: Source): seq<Source>
  {
    if entries == [] then [item]
    else if entries[0].url == item.url then [item] + entries[1..]
    else [entries[0]] + MapSet(entries[1..], item)
  }

  /** `Array.from(new Map(sources.map(item => [item.url, item])).values())`. */
  function UniqueSources(sources: seq<Source>): seq<Source>
    decreases |sources|
  {
    if sources == [] then []
    else MapSet(UniqueSources(sources[..|sources| - 1]), sources[|sources| - 1])
  }

  /** The last source with this URL. */
  function LastWithUrl(sources: seq<Source>, url: string): (r: Source)
    requires url in UrlsOf(sources)
    ensures r in sources && r.url == url
    decreases |sources|
  {
    var n := |sources| - 1;
    if sources[n].url == url then sources[n]
    else
      assert UrlsOf(sources[..n]) == UrlsOf(sources)[..n];
      LastWithUrl(sources[..n], url)
  }

  lemma {:induction false} MapSetUrls(entries: seq<Source>, item: Source)
    ensures UrlsOf(MapSet(entries, item))
         == if item.url in UrlsOf(entries) then UrlsOf(entries) else UrlsOf(entries) + [item.url]
    decreases |entries|
  {
    if entries != [] {
      MapSetUrls(entries[1..], item);
      assert UrlsOf(entries) == [entries[0].url] + UrlsOf(entries[1..]);
      if entries[0].url == item.url {
        assert UrlsOf(MapSet(entries, item)) == [item.url] + UrlsOf(entries[1..]);
      } else {
        assert UrlsOf(MapSet(entries, item)) == [entries[0].url] + UrlsOf(MapSet(entries[1..], item));
      }
    }
  }

  /** Setting a key in a map: the entry for that key becomes the item, the
      others stay. */
  lemma {:induction false} MapSetEntries(entries: seq<Source>, item: Source)
    requires Distinct(UrlsOf(entries))
    ensures forall e :: e in MapSet(entries, item) ==> e == item || (e in entries && e.url != item.url)
    ensures item in MapSet(entries, item)
    decreases |entries|
  {
    if entries != [] {
      assert UrlsOf(entries[1..]) == UrlsOf(entries)[1..];
      MapSetEntries(entries[1..], item);
      if entries[0].url == item.url {
        forall e | e in entries[1..]
          ensures e.url != item.url
        {
          var k :| 0 <= k < |entries[1..]| && entries[1..][k] == e;
          assert UrlsOf(entries)[k + 1] == e.url;
        }
      }
    }
  }

  /** The deduplicated URLs are the first occurrences of the sources' URLs,
      in order: no URL is lost or repeated. */
  lemma {:induction false} UniqueSourcesUrls(sources: seq<Source>)
    ensures UrlsOf(UniqueSources(sources)) == Dedup(UrlsOf(sources))
    decreases |sources|
  {
    if sources != [] {
      var n := |sources| - 1;
      var init := sources[..n];
      UniqueSourcesUrls(init);
      MapSetUrls(UniqueSources(init), sources[n]);
      assert UrlsOf(init) == UrlsOf(sources)[..n];
    }
  }

  /** Each URL carries the last source seen with it. */
  lemma {:induction false} UniqueSourcesLastWins(sources: seq<Source>)
    ensures forall e :: e in UniqueSources(sources) ==>
              e.url in UrlsOf(sources) && e == LastWithUrl(sources, e.url)
    decreases |sources|
  {
    if sources != [] {
      var n := |sources| - 1;
      var init, last := sources[..n], sources[n];
      UniqueSourcesLastWins(init);
      var m := UniqueSources(init);
      UniqueSourcesUrls(init);
      DedupCorrect(UrlsOf(init));
      MapSetEntries(m, last);
      assert UrlsOf(init) == UrlsOf(sources)[..n];
      assert UrlsOf(sources)[n] == last.url;
      forall e | e in UniqueSources(sources)
        ensures e.url in UrlsOf(sources) && e == LastWithUrl(sources, e.url)
      {
        if e != last {
          assert e in m && e.url != last.url;
          var k :| 0 <= k < n && UrlsOf(init)[k] == e.url;
          assert UrlsOf(sources)[k] == e.url;
          assert LastWithUrl(sources, e.url) == LastWithUrl(init, e.url);
        }
      }
    }
  }

  /** After deduplication no two sources share a URL, and every URL that
      was found survives. */
  lemma UniqueSourcesDistinct(sources: seq<Source>)
    ensures Distinct(UrlsOf(UniqueSources(sources)))
    ensures forall u :: u in UrlsOf(UniqueSources(sources)) <==> u in UrlsOf(sources)
  {
    UniqueSourcesUrls(sources);
    DedupCorrect(UrlsOf(sources));
  }

  // ---------------------------------------------------------------------
  // The response

  /** The `VisaInfoResponse` built from the model's text, its grounding
      metadata and the time stamp. */
  function BuildResponse(text: Option<string>, chunks: Option<seq<GroundingChunk>>, generatedAt: string): VisaInfoResponse
  {
    VisaInfoResponse(MarkdownOf(text), UniqueSources(SourcesOf(chunks)), generatedAt)
  }

  /** Every response carries answer text, and sources with a title and a
      distinct URL each. */
  lemma ResponseWellFormed(text: Option<string>, chunks: Option<seq<GroundingChunk>>, generatedAt: string)
    ensures var r := BuildResponse(text, chunks, generatedAt);
      && r.markdown != ""
      && Distinct(UrlsOf(r.sources))
      && forall s :: s in r.sources ==> s.title != "" && s.url != ""
  {
    var found := SourcesOf(chunks);
    UniqueSourcesLastWins(found);
    UniqueSourcesDistinct(found);
    if chunks.Some? {
      LinksOfNonEmpty(chunks.value);
    }
  }

  /** No grounding metadata means no sources. */
  lemma NoMetadataNoSources(text: Option<string>, generatedAt: string)
    ensures BuildResponse(text, None, generatedAt).sources == []
  {
  }

  // ---------------------------------------------------------------------
  // Error messages

  const QuotaMessage: string := "تجاوز الحد المسموح للطلبات."
  const ApiKeyMessage: string := "خطأ في مفتاح API."
  const NetworkMessage: string := "خطأ في الاتصال بالإنترنت."
  const FetchFailedMessage: string := "حدث خطأ أثناء استرجاع البيانات."

  /** The message thrown when the call fails, from the failure's own
      `message` (`None` when it has none). */
  function ErrorMessage(message: Option<string>): (r: string)
    ensures r in {QuotaMessage, ApiKeyMessage, NetworkMessage, FetchFailedMessage}
    ensures message.None? ==> r == FetchFailedMessage
  {
    if message.Some? && message.value != "" then
      if Includes(message.value, "429") then QuotaMessage
      else if Includes(message.value, "API key") then ApiKeyMessage
      else if Includes(message.value, "network") then NetworkMessage
      else FetchFailedMessage
    else FetchFailedMessage
  }

  /** The four messages are told apart by the first of `429`, `API key`,
      `network` the failure mentions; anything else, or no message at all,
      gives the generic text. */
  lemma ErrorMessageCases(message: Option<string>)
    ensures var r := ErrorMessage(message);
      && (r == QuotaMessage <==> message.Some? && Includes(message.value, "429"))
      && (r == ApiKeyMessage <==> message.Some? && !Includes(message.value, "429") && Includes(message.value, "API key"))
      && (r == NetworkMessage <==>
            (message.Some? && !Includes(message.value, "429")
             && !Includes(message.value, "API key") && Includes(message.value, "network")))
      && (r == FetchFailedMessage <==>
            (message.None?
             || (!Includes(message.value, "429") && !Includes(message.value, "API key") && !Includes(message.value, "network"))))
  {
    if message.Some? && message.value == "" {
      IncludesLength("", "429");
      IncludesLength("", "API key");
      IncludesLength("", "network");
    }
    assert QuotaMessage[0] != ApiKeyMessage[0] && ApiKeyMessage[7] != NetworkMessage[7];
    assert QuotaMessage[0] != FetchFailedMessage[0] && ApiKeyMessage[0] != FetchFailedMessage[0];
    assert NetworkMessage[0] != FetchFailedMessage[0] && NetworkMessage[0] != QuotaMessage[0];
  }
}
