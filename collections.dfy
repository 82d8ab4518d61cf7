/** Sequence helpers with JavaScript meaning: `Array.from(new Set(xs))`,
    which keeps the first occurrence of every value in insertion order, and
    `filter`. */
module Collections {

  /** No value occurs twice. */
  predicate Distinct<T(==)>(s: seq<T>)
  {
    forall i, j :: 0 <= i < j < |s| ==> s[i] != s[j]
  }

  /** The position of the first occurrence of `x` in `s`. */
  function FirstIndex<T(==)>(s: seq<T>, x: T): (i: nat)
    requires x in s
    ensures i < |s| && s[i] == x
    ensures forall j :: 0 <= j < i ==> s[j] != x
  {
    if s[0] == x then 0 else 1 + FirstIndex(s[1..], x)
  }

  /** `Array.from(new Set(s))`: the values of `s`, each once, in the order
      they are first added to the set. */
  function Dedup<T(==)>(s: seq<T>): seq<T>
    decreases |s|
  {
    if s == [] then []
    else
      var d := Dedup(s[..|s| - 1]);
      if s[|s| - 1] in d then d else d + [s[|s| - 1]]
  }

  /** The set keeps every value of `s` and nothing else, once each, ordered
      by first occurrence in `s`. */
  lemma {:induction false} DedupCorrect<T>(s: seq<T>)
    ensures forall x :: x in Dedup(s) <==> x in s
    ensures Distinct(Dedup(s))
    ensures forall i, j :: 0 <= i < j < |Dedup(s)| ==>
              FirstIndex(s, Dedup(s)[i]) < FirstIndex(s, Dedup(s)[j])
    decreases |s|
  {
    if s != [] {
      var init, last := s[..|s| - 1], s[|s| - 1];
      DedupCorrect(init);
      assert s == init + [last];
      var d := Dedup(init);
      forall x | x in init
        ensures FirstIndex(s, x) == FirstIndex(init, x)
      {
        FirstIndexPrefix(init, [last], x);
      }
      if last !in init {
        FirstIndexAppended(init, last);
      }
    }
  }

  /** A value of `p` is first found at the same place in `p + q`. */
  lemma {:induction false} FirstIndexPrefix<T>(p: seq<T>, q: seq<T>, x: T)
    requires x in p
    ensures FirstIndex(p + q, x) == FirstIndex(p, x)
  {
    var i := FirstIndex(p, x);
    var k := FirstIndex(p + q, x);
    assert (p + q)[i] == x;
    assert k <= i;
    assert p[k] == x;
  }

  /** A value new to `p` is first found just after it. */
  lemma FirstIndexAppended<T>(p: seq<T>, x: T)
    requires x !in p
    ensures FirstIndex(p + [x], x) == |p|
  {
    assert (p + [x])[|p|] == x;
    assert forall j :: 0 <= j < |p| ==> (p + [x])[j] == p[j];
  }

  /** A sequence without repeats is its own dedup. */
  lemma {:induction false} DedupDistinct<T>(s: seq<T>)
    requires Distinct(s)
    ensures Dedup(s) == s
    decreases |s|
  {
    if s != [] {
      var init := s[..|s| - 1];
      DedupDistinct(init);
      assert s == init + [s[|s| - 1]];
    }
  }

  /** Dedup of a sequence extended at the end extends the dedup of its
      prefix: values already seen keep their place. */
  lemma {:induction false} DedupPrefix<T>(p: seq<T>, q: seq<T>)
    ensures |Dedup(p)| <= |Dedup(p + q)| && Dedup(p + q)[..|Dedup(p)|] == Dedup(p)
    decreases |q|
  {
    if q != [] {
      var init := q[..|q| - 1];
      DedupPrefix(p, init);
      assert p + q == (p + init) + [q[|q| - 1]];
      assert (p + q)[..|p + q| - 1] == p + init;
    } else {
      assert p + q == p;
    }
  }
}
