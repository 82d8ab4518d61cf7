/** The JavaScript string primitives the components rely on: `startsWith`,
    `includes`, `split` on one character, `join`, and `trim`. */
module JsStrings {

  /** `s.startsWith(t)`. */
  predicate StartsWith(s: string, t: string)
  {
    |t| <= |s| && s[..|t|] == t
  }

  /** `s.includes(t)`: `t` starts at some offset of `s`, tried left to right. */
  predicate Includes(s: string, t: string)
    decreases |s|
  {
    StartsWith(s, t) || (s != [] && Includes(s[1..], t))
  }

  /** `t` occurs in `s` at offset `i`. */
  predicate OccursAt(s: string, t: string, i: int)
  {
    0 <= i && i + |t| <= |s| && s[i..i + |t|] == t
  }

  /** An offset where `t` occurs in `s`, found the way `Includes` searches. */
  lemma {:induction false} IncludesWitness(s: string, t: string) returns (i: int)
    requires Includes(s, t)
    ensures OccursAt(s, t, i)
    decreases |s|
  {
    if StartsWith(s, t) {
      i := 0;
    } else {
      var j := IncludesWitness(s[1..], t);
      assert s[1..][j..j + |t|] == s[j + 1..j + 1 + |t|];
      i := j + 1;
    }
  }

  /** An occurrence at any offset is found by `Includes`. */
  lemma {:induction false} OccursIncludes(s: string, t: string, i: int)
    requires OccursAt(s, t, i)
    ensures Includes(s, t)
    decreases i
  {
    if i > 0 {
      assert s[1..][i - 1..i - 1 + |t|] == s[i..i + |t|];
      OccursIncludes(s[1..], t, i - 1);
    }
  }

  /** `Includes` holds exactly when `t` occurs in `s` at some offset. */
  lemma IncludesIffOccurs(s: string, t: string)
    ensures Includes(s, t) <==> exists i :: OccursAt(s, t, i)
  {
    if Includes(s, t) {
      var i := IncludesWitness(s, t);
    }
    forall i | OccursAt(s, t, i)
      ensures Includes(s, t)
    {
      OccursIncludes(s, t, i);
    }
  }

  /** A string can only include a string no longer than itself, and the empty
      string is included everywhere. */
  lemma IncludesLength(s: string, t: string)
    ensures Includes(s, t) ==> |t| <= |s|
    ensures t == [] ==> Includes(s, t)
  {
    if Includes(s, t) {
      var i := IncludesWitness(s, t);
    }
    if t == [] {
      OccursIncludes(s, t, 0);
    }
  }

  /** A string that holds a character `s` lacks is not included in `s`. */
  lemma NotIncludedIfCharMissing(s: string, t: string, k: int)
    requires 0 <= k < |t| && t[k] !in s
    ensures !Includes(s, t)
  {
    forall i | 0 <= i && i + |t| <= |s|
      ensures !OccursAt(s, t, i)
    {
      assert s[i..i + |t|][k] == s[i + k];
    }
    IncludesIffOccurs(s, t);
  }

  /** A string two of whose neighbouring characters never stand side by
      side in `s` is not included in `s`. */
  lemma NotIncludedIfPairMissing(s: string, t: string, k: int)
    requires 0 <= k && k + 1 < |t|
    requires forall j :: 0 <= j && j + 1 < |s| ==> !(s[j] == t[k] && s[j + 1] == t[k + 1])
    ensures !Includes(s, t)
  {
    forall i | 0 <= i && i + |t| <= |s|
      ensures !OccursAt(s, t, i)
    {
      assert s[i..i + |t|][k] == s[i + k] && s[i..i + |t|][k + 1] == s[i + k + 1];
    }
    IncludesIffOccurs(s, t);
  }

  /** Two strings of the same length include one another only when equal. */
  lemma IncludesSameLength(s: string, t: string)
    requires |s| == |t|
    ensures Includes(s, t) <==> s == t
  {
    if Includes(s, t) {
      var i := IncludesWitness(s, t);
      assert i == 0;
    }
    if s == t {
      OccursIncludes(s, t, 0);
    }
  }

  /** `ws.join(sep)`. */
  function Join(ws: seq<string>, sep: char): string
  {
    if |ws| == 0 then ""
    else if |ws| == 1 then ws[0]
    else ws[0] + [sep] + Join(ws[1..], sep)
  }

  /** `s.split(sep)` for a one-character separator: the maximal pieces between
      separators, so two adjacent separators give an empty piece and the
      empty string gives one empty piece. Joining the pieces back gives `s`. */
  function Split(s: string, sep: char): (r: seq<string>)
    ensures |r| >= 1
    ensures forall k :: 0 <= k < |r| ==> sep !in r[k]
    ensures Join(r, sep) == s
    decreases |s|
  {
    if s == [] then [""]
    else
      var rest := Split(s[1..], sep);
      if s[0] == sep then
        assert Join([""] + rest, sep) == [sep] + Join(rest, sep) by {
          assert ([""] + rest)[1..] == rest;
        }
        [""] + rest
      else
        var r := [[s[0]] + rest[0]] + rest[1..];
        assert Join(r, sep) == [s[0]] + Join(rest, sep) by {
          assert r[1..] == rest[1..];
          if |rest| > 1 {
            assert Join(rest, sep) == rest[0] + [sep] + Join(rest[1..], sep);
          }
        }
        assert s == [s[0]] + s[1..];
        r
  }

  /** Every character of a joined piece occurs in the joined string. */
  lemma {:induction false} JoinContains(ws: seq<string>, sep: char, i: int, c: char)
    requires 0 <= i < |ws| && c in ws[i]
    ensures c in Join(ws, sep)
    decreases |ws|
  {
    if i > 0 {
      JoinContains(ws[1..], sep, i - 1, c);
    }
  }

  /** The pieces of a split hold only characters of the split string. */
  lemma SplitPiecesInside(s: string, sep: char)
    ensures forall w, c :: w in Split(s, sep) && c in w ==> c in s
  {
    var r := Split(s, sep);
    forall w, c | w in r && c in w
      ensures c in s
    {
      var i :| 0 <= i < |r| && r[i] == w;
      JoinContains(r, sep, i, c);
    }
  }

  /** The characters JavaScript's `\s` and `String.prototype.trim` treat as
      white space (WhiteSpace and LineTerminator of ECMA-262). */
  predicate IsJsSpace(c: char)
  {
    c == '\t' || c == '\n' || c == '\U{000B}' || c == '\U{000C}' || c == '\r' || c == ' '
    || c == '\U{00A0}' || c == '\U{1680}' || ('\U{2000}' <= c <= '\U{200A}')
    || c == '\U{2028}' || c == '\U{2029}' || c == '\U{202F}' || c == '\U{205F}'
    || c == '\U{3000}' || c == '\U{FEFF}'
  }

  /** Drops the leading white space. */
  function TrimStart(s: string): string
    decreases |s|
  {
    if |s| > 0 && IsJsSpace(s[0]) then TrimStart(s[1..]) else s
  }

  /** What is left after `TrimStart` is the longest suffix of `s` that does
      not start with white space. */
  lemma {:induction false} TrimStartSuffix(s: string)
    ensures var r := TrimStart(s);
      && |r| <= |s| && r == s[|s| - |r|..]
      && (forall k :: 0 <= k < |s| - |r| ==> IsJsSpace(s[k]))
      && (r == [] || !IsJsSpace(r[0]))
    decreases |s|
  {
    if |s| > 0 && IsJsSpace(s[0]) {
      TrimStartSuffix(s[1..]);
    }
  }

  /** Drops the trailing white space. */
  function TrimEnd(s: string): string
    decreases |s|
  {
    if |s| > 0 && IsJsSpace(s[|s| - 1]) then TrimEnd(s[..|s| - 1]) else s
  }

  /** What is left after `TrimEnd` is the longest prefix of `s` that does not
      end with white space. */
  lemma {:induction false} TrimEndPrefix(s: string)
    ensures var r := TrimEnd(s);
      && |r| <= |s| && r == s[..|r|]
      && (forall k :: |r| <= k < |s| ==> IsJsSpace(s[k]))
      && (r == [] || !IsJsSpace(r[|r| - 1]))
    decreases |s|
  {
    if |s| > 0 && IsJsSpace(s[|s| - 1]) {
      TrimEndPrefix(s[..|s| - 1]);
    }
  }

  /** `s.trim()`: neither starts nor ends with white space. */
  function Trim(s: string): (r: string)
    ensures r == [] || (!IsJsSpace(r[0]) && !IsJsSpace(r[|r| - 1]))
  {
    var m := TrimStart(s);
    TrimStartSuffix(s);
    TrimEndPrefix(m);
    TrimEnd(m)
  }

  /** `r` is `s` with white space cut from the first `i` and the last
      `|s| - i - |r|` positions. */
  predicate TrimmedAt(s: string, r: string, i: int)
  {
    && 0 <= i && i + |r| <= |s|
    && r == s[i..i + |r|]
    && (forall k :: 0 <= k < i ==> IsJsSpace(s[k]))
    && (forall k :: i + |r| <= k < |s| ==> IsJsSpace(s[k]))
  }

  /** How many leading characters the trim cuts away. */
  function TrimOffset(s: string): int
  {
    |s| - |TrimStart(s)|
  }

  /** The trim is a contiguous slice of `s`, with only white space cut away
      on either side. */
  lemma TrimSlice(s: string)
    ensures TrimmedAt(s, Trim(s), TrimOffset(s))
  {
    TrimStartSuffix(s);
    TrimEndPrefix(TrimStart(s));
  }

  /** A string with no white space at either end is its own trim. */
  lemma TrimUntrimmed(s: string)
    requires s == [] || (!IsJsSpace(s[0]) && !IsJsSpace(s[|s| - 1]))
    ensures Trim(s) == s
  {
    var r := Trim(s);
    var i := TrimOffset(s);
    TrimSlice(s);
    if s != [] {
      assert i == 0;
      assert i + |r| == |s|;
    }
  }
}
