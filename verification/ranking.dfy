/**
 * Frequency ranking shared by src/data/getCommonChoices.ts,
 * src/data/getCommonComponents.ts and the statistics pages: values are
 * counted into a `Map` (which remembers the order keys were first
 * inserted), and keys are then sorted by count, largest first, with the
 * engine's stable `Array.prototype.sort`.
 */
module Ranking {

  /* ---------------------------------------------------------------------- */
  /* Distinct values in first-occurrence order                               */
  /* ---------------------------------------------------------------------- */

  /** The distinct values of `xs`, each at its first occurrence. */
  function Distinct<T(==, !new)>(xs: seq<T>): (d: seq<T>)
    ensures forall x :: x in d <==> x in xs
    ensures forall x :: multiset(d)[x] <= 1
  {
    if xs == [] then []
    else
      var d := Distinct(xs[..|xs| - 1]);
      var x := xs[|xs| - 1];
      assert xs == xs[..|xs| - 1] + [x];
      if x in d then d else d + [x]
  }

  /** The `reduce` that counts values into a `Map`: `keys` is the map's
      insertion order and `counts` its contents. A key absent from the map
      reads as `undefined`, which is falsy, and starts at 1. */
  method Tally<T(==, !new)>(values: seq<T>) returns (keys: seq<T>, counts: map<T, nat>)
    ensures keys == Distinct(values)
    ensures forall x :: x in counts <==> x in values
    ensures forall x :: x in counts ==> counts[x] == multiset(values)[x]
  {
    keys := [];
    counts := map[];
    for i := 0 to |values|
      invariant keys == Distinct(values[..i])
      invariant forall x :: x in counts <==> x in values[..i]
      invariant forall x :: x in counts ==> counts[x] == multiset(values[..i])[x] >= 1
    {
      var next := values[i];
      assert values[..i + 1] == values[..i] + [next];
      var current := if next in counts then counts[next] else 0;
      if next !in counts {
        keys := keys + [next];
      }
      if current == 0 {
        counts := counts[next := 1];
      } else {
        counts := counts[next := current + 1];
      }
    }
    assert values[..|values|] == values;
  }

  /* ---------------------------------------------------------------------- */
  /* Stable sort, largest count first                                        */
  /* ---------------------------------------------------------------------- */

  /** Counts never increase from left to right. */
  predicate ByCount<T>(s: seq<T>, count: T -> nat) {
    forall i, j :: 0 <= i < j < |s| ==> count(s[i]) >= count(s[j])
  }

  /** The elements of `s` whose count is `n`, in their order in `s`. */
  function WithCount<T>(s: seq<T>, count: T -> nat, n: nat): seq<T> {
    if s == [] then []
    else (if count(s[0]) == n then [s[0]] else []) + WithCount(s[1..], count, n)
  }

  /** Inserts `x` after every element whose count is at least its own. */
  function InsertByCount<T>(sorted: seq<T>, x: T, count: T -> nat): seq<T> {
    if sorted == [] then [x]
    else if count(sorted[|sorted| - 1]) >= count(x) then sorted + [x]
    else InsertByCount(sorted[..|sorted| - 1], x, count) + [sorted[|sorted| - 1]]
  }

  /** `s.sort((a, b) => count(b) - count(a))` with a stable sort. */
  function SortByCount<T>(s: seq<T>, count: T -> nat): seq<T> {
    if s == [] then []
    else InsertByCount(SortByCount(s[..|s| - 1], count), s[|s| - 1], count)
  }

  lemma {:induction false} WithCountAppend<T>(a: seq<T>, b: seq<T>, count: T -> nat, n: nat)
    ensures WithCount(a + b, count, n) == WithCount(a, count, n) + WithCount(b, count, n)
  {
    if a == [] {
      assert a + b == b;
    } else {
      var head := if count(a[0]) == n then [a[0]] else [];
      assert (a + b)[0] == a[0] && (a + b)[1..] == a[1..] + b;
      WithCountAppend(a[1..], b, count, n);
      assert head + (WithCount(a[1..], count, n) + WithCount(b, count, n))
        == (head + WithCount(a[1..], count, n)) + WithCount(b, count, n);
    }
  }

  lemma {:induction false} InsertPermutes<T>(s: seq<T>, x: T, count: T -> nat)
    ensures multiset(InsertByCount(s, x, count)) == multiset(s) + multiset{x}
  {
    if s != [] && count(s[|s| - 1]) < count(x) {
      InsertPermutes(s[..|s| - 1], x, count);
      assert s == s[..|s| - 1] + [s[|s| - 1]];
    }
  }

  lemma {:induction false} InsertOrdered<T>(s: seq<T>, x: T, count: T -> nat)
    requires ByCount(s, count)
    ensures ByCount(InsertByCount(s, x, count), count)
  {
    if s != [] && count(s[|s| - 1]) < count(x) {
      var init := s[..|s| - 1];
      var last := s[|s| - 1];
      InsertOrdered(init, x, count);
      InsertPermutes(init, x, count);
      var r := InsertByCount(init, x, count);
      forall k | 0 <= k < |r| ensures count(r[k]) >= count(last) {
        assert r[k] in multiset(r);
        if r[k] != x {
          assert r[k] in multiset(init);
          var m :| 0 <= m < |init| && init[m] == r[k];
          assert s[m] == r[k];
        }
      }
      var t := r + [last];
      forall i, j | 0 <= i < j < |t| ensures count(t[i]) >= count(t[j]) {
        if j < |r| {
          assert t[i] == r[i] && t[j] == r[j];
        }
      }
    }
  }

  /** Inserting keeps, for every count, the elements with that count in the
      order they arrived: `x` lands after every element with its count. */
  lemma {:induction false} InsertStable<T>(s: seq<T>, x: T, count: T -> nat, n: nat)
    ensures WithCount(InsertByCount(s, x, count), count, n) == WithCount(s + [x], count, n)
  {
    if s != [] && count(s[|s| - 1]) < count(x) {
      var init := s[..|s| - 1];
      var last := s[|s| - 1];
      InsertStable(init, x, count, n);
      WithCountAppend(InsertByCount(init, x, count), [last], count, n);
      WithCountAppend(init, [x], count, n);
      WithCountAppend(init + [x], [last], count, n);
      WithCountAppend(init, [last], count, n);
      WithCountAppend(init + [last], [x], count, n);
      assert s == init + [last];
    }
  }

  /** The sort is a permutation. */
  lemma {:induction false} SortPermutes<T>(s: seq<T>, count: T -> nat)
    ensures multiset(SortByCount(s, count)) == multiset(s)
  {
    if s != [] {
      SortPermutes(s[..|s| - 1], count);
      InsertPermutes(SortByCount(s[..|s| - 1], count), s[|s| - 1], count);
      assert s == s[..|s| - 1] + [s[|s| - 1]];
    }
  }

  /** The sort puts larger counts first. */
  lemma {:induction false} SortOrdered<T>(s: seq<T>, count: T -> nat)
    ensures ByCount(SortByCount(s, count), count)
  {
    if s != [] {
      SortOrdered(s[..|s| - 1], count);
      InsertOrdered(SortByCount(s[..|s| - 1], count), s[|s| - 1], count);
    }
  }

  /** The sort is stable: elements with equal counts keep their order. */
  lemma {:induction false} SortStable<T>(s: seq<T>, count: T -> nat, n: nat)
    ensures WithCount(SortByCount(s, count), count, n) == WithCount(s, count, n)
  {
    if s != [] {
      var init := s[..|s| - 1];
      SortStable(init, count, n);
      InsertStable(SortByCount(init, count), s[|s| - 1], count, n);
      WithCountAppend(SortByCount(init, count), [s[|s| - 1]], count, n);
      WithCountAppend(init, [s[|s| - 1]], count, n);
      assert s == init + [s[|s| - 1]];
    }
  }

  /* ---------------------------------------------------------------------- */
  /* Ranking by frequency                                                    */
  /* ---------------------------------------------------------------------- */

  /** How often each value occurs in `values`. */
  function Frequency<T(==)>(values: seq<T>): T -> nat {
    x => multiset(values)[x]
  }

  /** `ranked` lists each distinct value of `values` once, most frequent
      first, and values seen equally often in the order of their first
      occurrence. */
  ghost predicate IsRanking<T(!new)>(ranked: seq<T>, values: seq<T>) {
    multiset(ranked) == multiset(Distinct(values))
    && ByCount(ranked, Frequency(values))
    && forall n: nat :: WithCount(ranked, Frequency(values), n) == WithCount(Distinct(values), Frequency(values), n)
  }

  /** A ranking names every value once and nothing else. */
  lemma RankingDistinct<T(!new)>(ranked: seq<T>, values: seq<T>)
    requires IsRanking(ranked, values)
    ensures forall x :: x in ranked <==> x in values
    ensures forall x :: multiset(ranked)[x] <= 1
  {
    forall x ensures x in ranked <==> x in values {
      assert x in ranked <==> x in multiset(ranked);
      assert x in Distinct(values) <==> x in multiset(Distinct(values));
    }
  }

  lemma {:induction false} WithCountAgree<T>(s: seq<T>, f: T -> nat, g: T -> nat, n: nat)
    requires forall x :: x in s ==> f(x) == g(x)
    ensures WithCount(s, f, n) == WithCount(s, g, n)
  {
    if s != [] {
      WithCountAgree(s[1..], f, g, n);
    }
  }

  lemma {:induction false} SortAgree<T>(s: seq<T>, f: T -> nat, g: T -> nat)
    requires forall x :: x in s ==> f(x) == g(x)
    ensures SortByCount(s, f) == SortByCount(s, g)
  {
    if s != [] {
      var init := s[..|s| - 1];
      SortAgree(init, f, g);
      SortPermutes(init, f);
      forall y | y in SortByCount(init, f) ensures f(y) == g(y) {
        assert y in multiset(SortByCount(init, f));
        assert y in init;
      }
      InsertAgree(SortByCount(init, f), s[|s| - 1], f, g);
    }
  }

  lemma {:induction false} InsertAgree<T>(s: seq<T>, x: T, f: T -> nat, g: T -> nat)
    requires forall y :: y in s ==> f(y) == g(y)
    requires f(x) == g(x)
    ensures InsertByCount(s, x, f) == InsertByCount(s, x, g)
  {
    if s != [] {
      InsertAgree(s[..|s| - 1], x, f, g);
    }
  }

  /** Sorting the distinct values by their frequency ranks them. */
  lemma SortIsRanking<T(!new)>(values: seq<T>)
    ensures IsRanking(SortByCount(Distinct(values), Frequency(values)), values)
  {
    var keys := Distinct(values);
    SortPermutes(keys, Frequency(values));
    SortOrdered(keys, Frequency(values));
    forall n: nat ensures WithCount(SortByCount(keys, Frequency(values)), Frequency(values), n)
                          == WithCount(keys, Frequency(values), n) {
      SortStable(keys, Frequency(values), n);
    }
  }

  /** Counts the values, then sorts the distinct ones by count. */
  method RankByFrequency<T(==, !new)>(values: seq<T>) returns (ranked: seq<T>)
    ensures IsRanking(ranked, values)
  {
    var keys, counts := Tally(values);
    var count := (x: T) => if x in counts then counts[x] else 0;
    ranked := SortByCount(keys, count);
    assert forall x :: x in keys ==> count(x) == Frequency(values)(x);
    SortAgree(keys, count, Frequency(values));
    SortIsRanking(values);
  }
}
