/** The pure helpers of components/VisaResult.tsx: the text of a rendered
    heading, the colour scheme chosen for a section from its heading, the
    currencies offered by the converter and the destination checks that
    switch the Schengen checklist and the UK bank-statement tool on. */
module VisaResult {
  import opened Types
  import opened JsStrings
  import opened Collections

  // ---------------------------------------------------------------------
  // extractTextFromNode

  /** The shapes a React child can take, as far as the heading helper
      distinguishes them: a falsy value (`null`, `undefined`, `false`, `0`,
      `''`), a string, an array of children, an object that may carry a
      truthy `props.children`, and anything else (a number, `true`). */
  datatype Node =
    | Falsy
    | Text(s: string)
    | Fragment(children: seq<Node>)
    | Element(child: Option<Node>)
    | Other

  /** `join('')`. */
  function Concat(ss: seq<string>): string
  {
    if ss == [] then "" else ss[0] + Concat(ss[1..])
  }

  /** All string leaves of a node reachable through arrays and element
      children, in document order. */
  function Leaves(node: Node): seq<string>
  {
    match node
    case Falsy => []
    case Text(s) => [s]
    case Fragment(children) => Flatten(seq(|children|, i requires 0 <= i < |children| => Leaves(children[i])))
    case Element(child) => if child.Some? then Leaves(child.value) else []
    case Other => []
  }

  function Flatten(xss: seq<seq<string>>): seq<string>
  {
    if xss == [] then [] else xss[0] + Flatten(xss[1..])
  }

  /** extractTextFromNode. */
  function ExtractText(node: Node): string
  {
    match node
    case Falsy => ""
    case Text(s) => s
    case Fragment(children) => Concat(seq(|children|, i requires 0 <= i < |children| => ExtractText(children[i])))
    case Element(child) => if child.Some? then ExtractText(child.value) else ""
    case Other => ""
  }

  lemma {:induction false} ConcatAppend(a: seq<string>, b: seq<string>)
    ensures Concat(a + b) == Concat(a) + Concat(b)
    decreases |a|
  {
    if a != [] {
      ConcatAppend(a[1..], b);
      assert (a + b)[1..] == a[1..] + b;
    } else {
      assert a + b == b;
    }
  }

  lemma {:induction false} ConcatFlatten(xss: seq<seq<string>>)
    ensures Concat(Flatten(xss)) == Concat(seq(|xss|, i requires 0 <= i < |xss| => Concat(xss[i])))
    decreases |xss|
  {
    if xss != [] {
      ConcatFlatten(xss[1..]);
      ConcatAppend(xss[0], Flatten(xss[1..]));
      var whole := seq(|xss|, i requires 0 <= i < |xss| => Concat(xss[i]));
      var rest := seq(|xss[1..]|, i requires 0 <= i < |xss[1..]| => Concat(xss[1..][i]));
      assert whole[1..] == rest;
    }
  }

  /** The text of a node is its string leaves joined in document order:
      nothing but strings contributes, and nested arrays and elements are
      read through. */
  lemma {:induction false} ExtractTextIsLeaves(node: Node)
    ensures ExtractText(node) == Concat(Leaves(node))
    decreases node
  {
    match node
    case Falsy =>
    case Text(s) =>
      assert Concat([s]) == s + Concat([]);
    case Fragment(children) =>
      var ls := seq(|children|, i requires 0 <= i < |children| => Leaves(children[i]));
      forall i | 0 <= i < |children|
        ensures ExtractText(children[i]) == Concat(ls[i])
      {
        ExtractTextIsLeaves(children[i]);
      }
      ConcatFlatten(ls);
      assert seq(|children|, i requires 0 <= i < |children| => ExtractText(children[i]))
          == seq(|ls|, i requires 0 <= i < |ls| => Concat(ls[i]));
    case Element(child) =>
      if child.Some? {
        ExtractTextIsLeaves(child.value);
      }
    case Other =>
  }

  /** The text of an array of children is the texts of its two halves
      joined. */
  lemma FragmentSplits(xs: seq<Node>, ys: seq<Node>)
    ensures ExtractText(Fragment(xs + ys)) == ExtractText(Fragment(xs)) + ExtractText(Fragment(ys))
  {
    var zs := xs + ys;
    var ex := seq(|xs|, i requires 0 <= i < |xs| => ExtractText(xs[i]));
    var ey := seq(|ys|, i requires 0 <= i < |ys| => ExtractText(ys[i]));
    assert seq(|zs|, i requires 0 <= i < |zs| => ExtractText(zs[i])) == ex + ey;
    ConcatAppend(ex, ey);
  }

  /** A heading that is a single string, or an element wrapping it, reads
      as that string; empty and non-text children read as nothing. */
  lemma ExtractTextBasics(s: string, x: Node)
    ensures ExtractText(Text(s)) == s
    ensures ExtractText(Element(Some(Text(s)))) == s
    ensures ExtractText(Fragment([x])) == ExtractText(x)
    ensures ExtractText(Fragment([])) == ""
    ensures ExtractText(Element(None)) == "" && ExtractText(Falsy) == "" && ExtractText(Other) == ""
  {
    assert seq(1, i requires 0 <= i < 1 => ExtractText([x][i])) == [ExtractText(x)];
    assert Concat([ExtractText(x)]) == ExtractText(x) + Concat([]);
  }

  // ---------------------------------------------------------------------
  // getSectionConfig

  datatype SectionType = Fees | Docs | Alert | Interview

  /** The style a section of the rendered answer receives. */
  datatype SectionConfig = SectionConfig(sectionType: SectionType, color: string, border: string, bg: string)

  /** The Tailwind classes of each section type. */
  function StyleOf(t: SectionType): (c: SectionConfig)
    ensures c.sectionType == t
  {
    match t
    case Fees => SectionConfig(Fees, "text-emerald-700 dark:text-emerald-400", "border-emerald-500", "bg-emerald-50 dark:bg-emerald-900/10")
    case Docs => SectionConfig(Docs, "text-blue-700 dark:text-blue-400", "border-blue-500", "bg-blue-50 dark:bg-blue-900/10")
    case Alert => SectionConfig(Alert, "text-red-700 dark:text-red-400", "border-red-500", "bg-red-50 dark:bg-red-900/10")
    case Interview => SectionConfig(Interview, "text-purple-700 dark:text-purple-400", "border-purple-500", "bg-purple-50 dark:bg-purple-900/10")
  }

  /** The heading words that select each section type. */
  function Keywords(t: SectionType): seq<string>
  {
    match t
    case Fees => ["رسوم", "Fees"]
    case Docs => ["مستندات", "Documents"]
    case Alert => ["رفض", "Red Flags", "تحذير"]
    case Interview => ["مقابلة", "Interview"]
  }

  /** The order in which the section types are tried. */
  function Priority(t: SectionType): nat
  {
    match t
    case Fees => 0
    case Docs => 1
    case Alert => 2
    case Interview => 3
  }

  /** The heading contains one of the words of section type `t`. */
  predicate Mentions(text: string, t: SectionType)
  {
    exists i :: 0 <= i < |Keywords(t)| && Includes(text, Keywords(t)[i])
  }

  /** getSectionConfig: `None` stands for `null`. */
  function GetSectionConfig(text: string): (r: Option<SectionConfig>)
    ensures r.Some? ==> r.value == StyleOf(r.value.sectionType)
  {
    if Includes(text, "رسوم") || Includes(text, "Fees") then Some(StyleOf(Fees))
    else if Includes(text, "مستندات") || Includes(text, "Documents") then Some(StyleOf(Docs))
    else if Includes(text, "رفض") || Includes(text, "Red Flags") || Includes(text, "تحذير") then Some(StyleOf(Alert))
    else if Includes(text, "مقابلة") || Includes(text, "Interview") then Some(StyleOf(Interview))
    else None
  }

  /** The words of each type, written out. */
  lemma MentionsIff(text: string)
    ensures Mentions(text, Fees) <==> Includes(text, "رسوم") || Includes(text, "Fees")
    ensures Mentions(text, Docs) <==> Includes(text, "مستندات") || Includes(text, "Documents")
    ensures Mentions(text, Alert) <==> Includes(text, "رفض") || Includes(text, "Red Flags") || Includes(text, "تحذير")
    ensures Mentions(text, Interview) <==> Includes(text, "مقابلة") || Includes(text, "Interview")
  {
    assert Keywords(Fees)[0] == "رسوم" && Keywords(Fees)[1] == "Fees";
    assert Keywords(Docs)[0] == "مستندات" && Keywords(Docs)[1] == "Documents";
    assert Keywords(Alert)[0] == "رفض" && Keywords(Alert)[1] == "Red Flags" && Keywords(Alert)[2] == "تحذير";
    assert Keywords(Interview)[0] == "مقابلة" && Keywords(Interview)[1] == "Interview";
  }

  /** A heading gets a style exactly when it holds one of the eight words. */
  lemma SectionConfigNoneIff(text: string)
    ensures GetSectionConfig(text).None? <==> forall t :: !Mentions(text, t)
  {
    MentionsIff(text);
    if GetSectionConfig(text).None? {
      forall t
        ensures !Mentions(text, t)
      {
        match t
        case Fees =>
        case Docs =>
        case Alert =>
        case Interview =>
      }
    }
  }

  /** The style chosen is that of the first type, in the order fees,
      documents, red flags, interview, whose words the heading holds. */
  lemma SectionConfigChoosesFirstMentioned(text: string)
    requires GetSectionConfig(text).Some?
    ensures var t := GetSectionConfig(text).value.sectionType;
      Mentions(text, t) && forall u :: Priority(u) < Priority(t) ==> !Mentions(text, u)
  {
    MentionsIff(text);
    var t := GetSectionConfig(text).value.sectionType;
    forall u | Priority(u) < Priority(t)
      ensures !Mentions(text, u)
    {
      match u
      case Fees =>
      case Docs =>
      case Alert =>
      case Interview =>
    }
  }

  /** A fees heading is styled as fees whatever else it mentions. */
  lemma FeesWins(text: string)
    requires Includes(text, "رسوم") || Includes(text, "Fees")
    ensures GetSectionConfig(text) == Some(StyleOf(Fees))
  {
  }

  // ---------------------------------------------------------------------
  // CurrencyConverter's currencyOptions

  /** `filter(Boolean)` on strings: drops the empty ones. */
  function NonEmpty(s: seq<string>): (r: seq<string>)
    ensures forall x :: x in r <==> x in s && x != ""
  {
    if s == [] then []
    else (if s[0] != "" then [s[0]] else []) + NonEmpty(s[1..])
  }

  /** The currencies the converter offers, from the two countries' codes. */
  function CurrencyOptions(origin: Country, destination: Country): seq<string>
  {
    Dedup(NonEmpty(["USD", "EUR", origin.currencyCode, destination.currencyCode]))
  }

  /** USD and EUR come first, the two countries' currencies follow when they
      are set, nothing is listed twice and no entry is empty. */
  lemma CurrencyOptionsCorrect(origin: Country, destination: Country)
    ensures var r := CurrencyOptions(origin, destination);
      && 2 <= |r| <= 4 && r[0] == "USD" && r[1] == "EUR"
      && Distinct(r)
      && (forall x :: x in r <==> x in {"USD", "EUR", origin.currencyCode, destination.currencyCode} && x != "")
      && (origin.currencyCode != "" && origin.currencyCode !in {"USD", "EUR"} ==> |r| >= 3 && r[2] == origin.currencyCode)
      && (destination.currencyCode != "" && destination.currencyCode !in {"USD", "EUR", origin.currencyCode}
          ==> r[|r| - 1] == destination.currencyCode)
  {
    var o, d := origin.currencyCode, destination.currencyCode;
    CurrencyMembers(origin, destination);
    if o != "" && o !in {"USD", "EUR"} {
      CurrencyOriginThird(origin, destination);
    }
    if d != "" && d !in {"USD", "EUR", o} {
      CurrencyDestinationLast(origin, destination);
    }
  }

  /** USD and EUR first, no repeats, exactly the non-empty codes, two to four
      entries. */
  lemma CurrencyMembers(origin: Country, destination: Country)
    ensures var r := CurrencyOptions(origin, destination);
      && 2 <= |r| <= 4 && r[0] == "USD" && r[1] == "EUR"
      && Distinct(r)
      && (forall x :: x in r <==> x in {"USD", "EUR", origin.currencyCode, destination.currencyCode} && x != "")
  {
    var o, d := origin.currencyCode, destination.currencyCode;
    var s := ["USD", "EUR", o, d];
    var head := ["USD", "EUR"];
    assert s[1..] == ["EUR", o, d] && s[1..][1..] == [o, d];
    assert NonEmpty(s) == head + NonEmpty([o, d]);
    assert Distinct(head);
    DedupDistinct(head);
    DedupPrefix(head, NonEmpty([o, d]));
    DedupCorrect(NonEmpty(s));
    var r := CurrencyOptions(origin, destination);
    assert r[..2] == head;
    assert forall x :: x in r <==> x in s && x != "";
    NonEmptyShort([o, d]);
    DedupLength(NonEmpty(s));
  }

  /** A set origin currency other than USD and EUR comes third. */
  lemma CurrencyOriginThird(origin: Country, destination: Country)
    requires origin.currencyCode != "" && origin.currencyCode !in {"USD", "EUR"}
    ensures |CurrencyOptions(origin, destination)| >= 3
    ensures CurrencyOptions(origin, destination)[2] == origin.currencyCode
  {
    var o, d := origin.currencyCode, destination.currencyCode;
    var s := ["USD", "EUR", o, d];
    var front := ["USD", "EUR", o];
    assert s == front + [d];
    NonEmptyAppend(front, [d]);
    assert NonEmpty(front) == front by {
      assert front[1..] == ["EUR", o] && front[1..][1..] == [o];
      assert NonEmpty([o]) == [o] + NonEmpty([]);
      assert NonEmpty(["EUR", o]) == ["EUR"] + NonEmpty([o]);
    }
    assert Distinct(front);
    DedupDistinct(front);
    DedupPrefix(front, NonEmpty([d]));
  }

  /** A set destination currency that is new comes last. */
  lemma CurrencyDestinationLast(origin: Country, destination: Country)
    requires destination.currencyCode != ""
    requires destination.currencyCode !in {"USD", "EUR", origin.currencyCode}
    ensures var r := CurrencyOptions(origin, destination);
      |r| > 0 && r[|r| - 1] == destination.currencyCode
  {
    var o, d := origin.currencyCode, destination.currencyCode;
    var front := ["USD", "EUR", o];
    var s := front + [d];
    assert ["USD", "EUR", o, d] == s;
    NonEmptyAppend(front, [d]);
    var x := NonEmpty(front);
    assert NonEmpty(s) == x + [d];
    DedupCorrect(x);
    assert d !in x;
    assert (x + [d])[..|x + [d]| - 1] == x;
    assert Dedup(x + [d]) == Dedup(x) + [d];
  }

  /** A single code is kept exactly when it is not empty. */
  lemma NonEmptyOne(x: string)
    ensures NonEmpty([x]) == if x != "" then [x] else []
  {
  }

  /** The filter keeps order: it splits over concatenation. */
  lemma {:induction false} NonEmptyAppend(a: seq<string>, b: seq<string>)
    ensures NonEmpty(a + b) == NonEmpty(a) + NonEmpty(b)
    decreases |a|
  {
    if a == [] {
      assert a + b == b;
    } else {
      var head := if a[0] != "" then [a[0]] else [];
      assert (a + b)[0] == a[0] && (a + b)[1..] == a[1..] + b;
      assert NonEmpty(a + b) == head + NonEmpty(a[1..] + b);
      NonEmptyAppend(a[1..], b);
      assert NonEmpty(a) == head + NonEmpty(a[1..]);
    }
  }

  lemma NonEmptyShort(s: seq<string>)
    ensures |NonEmpty(s)| <= |s|
  {
  }

  lemma {:induction false} DedupLength(s: seq<string>)
    ensures |Dedup(s)| <= |s|
    decreases |s|
  {
    if s != [] {
      DedupLength(s[..|s| - 1]);
    }
  }

  // ---------------------------------------------------------------------
  // Destination checks

  /** The Schengen-area destinations the checklist is shown for. */
  const SchengenCodes: seq<string> := [
    "FR", "DE", "IT", "ES", "NL", "SE", "NO", "DK", "PT", "GR",
    "CH", "PL", "HR", "BG", "AT", "BE", "CZ", "HU", "MT", "SK",
    "SI", "EE", "LV", "LT", "IS", "LI", "LU", "FI", "RO"]

  predicate IsSchengen(destination: Country)
  {
    destination.code in SchengenCodes
  }

  predicate IsUK(destination: Country)
  {
    destination.code == "GB"
  }

  /** The extra tools rendered under the answer. */
  datatype Tool = SchengenChecklistTool | BankStatementAnalyzerTool

  function ExtraTools(destination: Country): (r: set<Tool>)
    ensures SchengenChecklistTool in r <==> destination.code in SchengenCodes
    ensures BankStatementAnalyzerTool in r <==> destination.code == "GB"
  {
    (if IsSchengen(destination) then {SchengenChecklistTool} else {})
      + (if IsUK(destination) then {BankStatementAnalyzerTool} else {})
  }

  /** The list names 29 distinct countries. */
  lemma SchengenCodesDistinct()
    ensures |SchengenCodes| == 29 && Distinct(SchengenCodes)
  {
  }

  /** The United Kingdom is not in the list, so no destination gets both
      the checklist and the bank-statement tool. */
  lemma AtMostOneExtraTool(destination: Country)
    ensures |ExtraTools(destination)| <= 1
  {
    if IsUK(destination) {
      assert "GB" !in SchengenCodes;
    }
  }
}
