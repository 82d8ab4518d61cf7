/** `normalizeText` of components/CountryCombobox.tsx: the canonical form in
    which country names and the user's query are compared. */
module Normalize {
  import opened JsStrings

  /** `toLowerCase` on one character, for the ASCII capitals A-Z. */
  function LowerChar(c: char): (r: char)
    ensures !('A' <= r <= 'Z')
    ensures !('A' <= c <= 'Z') ==> r == c
  {
    if 'A' <= c <= 'Z' then (c as int + 32) as char else c
  }

  /** `toLowerCase` of a string (ASCII capitals only). */
  function ToLower(s: string): (r: string)
    ensures |r| == |s|
    ensures forall k :: 0 <= k < |s| ==> r[k] == LowerChar(s[k])
  {
    if s == [] then [] else [LowerChar(s[0])] + ToLower(s[1..])
  }

  /** `s.replace(/[...]/g, repl)`: every character of `targets` becomes `repl`. */
  function ReplaceAll(s: string, targets: set<char>, repl: char): (r: string)
    ensures |r| == |s|
    ensures forall k :: 0 <= k < |s| ==> r[k] == if s[k] in targets then repl else s[k]
  {
    if s == [] then []
    else [if s[0] in targets then repl else s[0]] + ReplaceAll(s[1..], targets, repl)
  }

  /** `\w` without the `u` flag: ASCII letters, digits and underscore. */
  predicate IsWordChar(c: char)
  {
    ('a' <= c <= 'z') || ('A' <= c <= 'Z') || ('0' <= c <= '9') || c == '_'
  }

  /** The characters the class `[\w\s\u0600-\u06FF]` lets through. */
  predicate IsKept(c: char)
  {
    IsWordChar(c) || IsJsSpace(c) || ('\U{0600}' <= c <= '\U{06FF}')
  }

  /** `s.replace(/[^\w\s\u0600-\u06FF]/g, '')`: keeps the allowed characters,
      in order, and drops the others. */
  function StripDisallowed(s: string): (r: string)
    ensures |r| <= |s|
    ensures forall k :: 0 <= k < |r| ==> IsKept(r[k]) && r[k] in s
    ensures (forall k :: 0 <= k < |s| ==> IsKept(s[k])) ==> r == s
  {
    if s == [] then []
    else (if IsKept(s[0]) then [s[0]] else []) + StripDisallowed(s[1..])
  }

  /** A single character survives exactly when it is allowed. */
  lemma StripDisallowedChar(c: char)
    ensures StripDisallowed([c]) == if IsKept(c) then [c] else []
  {
  }

  /** Stripping a string that starts with `x`. */
  lemma StripDisallowedCons(x: char, t: string)
    ensures StripDisallowed([x] + t) == (if IsKept(x) then [x] else []) + StripDisallowed(t)
  {
    assert ([x] + t)[0] == x && ([x] + t)[1..] == t;
  }

  /** Stripping works piece by piece: every allowed character survives, in
      its order, and with the previous lemmas this pins the result down. */
  lemma {:induction false} StripDisallowedAppend(a: string, b: string)
    ensures StripDisallowed(a + b) == StripDisallowed(a) + StripDisallowed(b)
    decreases |a|
  {
    if a == [] {
      assert a + b == b;
    } else {
      var x, t := a[0], a[1..];
      var h := if IsKept(x) then [x] else [];
      assert a == [x] + t;
      assert a + b == [x] + (t + b);
      calc {
        StripDisallowed(a + b);
        { StripDisallowedCons(x, t + b); }
        h + StripDisallowed(t + b);
        { StripDisallowedAppend(t, b); }
        h + (StripDisallowed(t) + StripDisallowed(b));
        (h + StripDisallowed(t)) + StripDisallowed(b);
        { StripDisallowedCons(x, t); }
        StripDisallowed(a) + StripDisallowed(b);
      }
    }
  }

  /** The Arabic letter variants the normalizer folds away: alef with hamza
      above, alef with hamza below, alef with madda, teh marbuta, alef
      maksura, waw with hamza and yeh with hamza. */
  const Variants: set<char> := {'أ', 'إ', 'آ', 'ة', 'ى', 'ؤ', 'ئ'}

  /** A character that can appear in a normalized string. */
  predicate IsCanonical(c: char)
  {
    IsKept(c) && !('A' <= c <= 'Z') && c !in Variants
  }

  /** What every normalized string looks like: only lower-case word
      characters, white space and Arabic-block letters other than the
      variants, with no white space at either end. */
  predicate IsNormalized(s: string)
  {
    && (forall k :: 0 <= k < |s| ==> IsCanonical(s[k]))
    && (s == [] || (!IsJsSpace(s[0]) && !IsJsSpace(s[|s| - 1])))
  }

  /** The five `replace` calls that fold the letter variants, in order: alef
      forms to alef, teh marbuta to heh, alef maksura to yeh, waw with hamza
      to waw, yeh with hamza to yeh. No variant survives, and no character
      is made upper-case. */
  function FoldVariants(s: string): (r: string)
    ensures |r| == |s|
    ensures forall k :: 0 <= k < |r| ==> r[k] == FoldChar(s[k])
    ensures (forall k :: 0 <= k < |s| ==> s[k] !in Variants) ==> r == s
  {
    var f1 := ReplaceAll(s, {'أ', 'إ', 'آ'}, 'ا');
    var f2 := ReplaceAll(f1, {'ة'}, 'ه');
    var f3 := ReplaceAll(f2, {'ى'}, 'ي');
    var f4 := ReplaceAll(f3, {'ؤ'}, 'و');
    var f5 := ReplaceAll(f4, {'ئ'}, 'ي');
    forall k | 0 <= k < |s|
      ensures f5[k] == FoldChar(s[k])
    {
      assert f1[k] == if s[k] in {'أ', 'إ', 'آ'} then 'ا' else s[k];
      assert f2[k] == if f1[k] == 'ة' then 'ه' else f1[k];
      assert f3[k] == if f2[k] == 'ى' then 'ي' else f2[k];
      assert f4[k] == if f3[k] == 'ؤ' then 'و' else f3[k];
      assert f5[k] == if f4[k] == 'ئ' then 'ي' else f4[k];
    }
    f5
  }

  /** The five replacements, as they act on one character. */
  function FoldChar(c: char): (r: char)
    ensures r !in Variants
    ensures c !in Variants ==> r == c
    ensures 'A' <= r <= 'Z' ==> r == c
  {
    if c == 'أ' || c == 'إ' || c == 'آ' then 'ا'
    else if c == 'ة' then 'ه'
    else if c == 'ى' then 'ي'
    else if c == 'ؤ' then 'و'
    else if c == 'ئ' then 'ي'
    else c
  }

  /** Lowercases, folds the letter variants (alef forms to alef, teh marbuta
      to heh, alef maksura and yeh with hamza to yeh, waw with hamza to waw),
      strips everything outside word characters, white space and the Arabic
      block, and trims. */
  function NormalizeText(text: string): (r: string)
    ensures IsNormalized(r)
  {
    var stripped := StripDisallowed(FoldVariants(ToLower(text)));
    StrippedCanonical(text);
    TrimCanonical(stripped);
    Trim(stripped)
  }

  /** After lowercasing, folding and stripping only canonical characters are
      left. */
  lemma StrippedCanonical(text: string)
    ensures var stripped := StripDisallowed(FoldVariants(ToLower(text)));
      forall k :: 0 <= k < |stripped| ==> IsCanonical(stripped[k])
  {
    var lowered := ToLower(text);
    var folded := FoldVariants(lowered);
    var stripped := StripDisallowed(folded);
    forall k | 0 <= k < |stripped|
      ensures IsCanonical(stripped[k])
    {
      var j :| 0 <= j < |folded| && folded[j] == stripped[k];
      assert folded[j] == FoldChar(LowerChar(text[j]));
    }
  }

  /** Trimming keeps only characters of the trimmed string. */
  lemma TrimCanonical(s: string)
    requires forall k :: 0 <= k < |s| ==> IsCanonical(s[k])
    ensures forall k :: 0 <= k < |Trim(s)| ==> IsCanonical(Trim(s)[k])
  {
    var r := Trim(s);
    TrimSlice(s);
    var i := TrimOffset(s);
    forall k | 0 <= k < |r|
      ensures IsCanonical(r[k])
    {
      assert r[k] == s[i + k];
    }
  }

  /** A normalized string is left as it is: the normalizer fixes exactly the
      normalized strings. */
  lemma NormalizeFixesNormalized(s: string)
    ensures NormalizeText(s) == s <==> IsNormalized(s)
  {
    if IsNormalized(s) {
      assert ToLower(s) == s;
      assert FoldVariants(s) == s;
      assert StripDisallowed(s) == s;
      TrimUntrimmed(s);
    }
  }

  /** When lowercasing and folding already leave a normalized string, that
      string is the result: nothing is stripped and nothing trimmed. */
  lemma NormalizeFolded(s: string)
    requires IsNormalized(FoldVariants(ToLower(s)))
    ensures NormalizeText(s) == FoldVariants(ToLower(s))
  {
    var t := FoldVariants(ToLower(s));
    assert StripDisallowed(t) == t;
    TrimUntrimmed(t);
  }

  /** Normalizing twice is normalizing once. */
  lemma NormalizeIdempotent(s: string)
    ensures NormalizeText(NormalizeText(s)) == NormalizeText(s)
  {
    NormalizeFixesNormalized(NormalizeText(s));
  }
}
