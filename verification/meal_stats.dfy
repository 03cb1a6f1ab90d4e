/**
 * The component statistics page (src/pages/MealStatsPage.tsx): how often
 * each meal component was used, its share of all uses in whole percent,
 * most used first, and the largest count for scaling the bars.
 */
module MealStats {
  import opened Entries
  import Common
  import Ranking

  datatype ComponentStat = ComponentStat(name: string, count: nat, percentage: int)

  /** `Math.round((count / total) * 100)`, or 0 when there is nothing to
      divide by. `Math.round` rounds halves up. */
  function Percentage(count: nat, total: nat): (p: int)
    ensures total == 0 ==> p == 0
    ensures total != 0 ==> p as real - 0.5 <= (count as real / total as real) * 100.0 < p as real + 0.5
  {
    if total != 0 then ((count as real / total as real) * 100.0 + 0.5).Floor else 0
  }

  /** A share of a total is a percentage between 0 and 100. */
  lemma PercentageBounds(count: nat, total: nat)
    requires count <= total
    ensures 0 <= Percentage(count, total) <= 100
  {
    if total != 0 {
      var ratio := count as real / total as real;
      assert ratio * total as real == count as real;
      assert 0.0 <= ratio <= 1.0;
    }
  }

  /** The sort key of a stat. */
  function StatCount(s: ComponentStat): nat {
    s.count
  }

  /** The names of the stats, in order. */
  function Names(stats: seq<ComponentStat>): (names: seq<string>)
    ensures |names| == |stats| && forall i :: 0 <= i < |stats| ==> names[i] == stats[i].name
  {
    seq(|stats|, i requires 0 <= i < |stats| => stats[i].name)
  }

  /** The sum of the counts. */
  function Total(stats: seq<ComponentStat>): nat {
    if stats == [] then 0 else Total(stats[..|stats| - 1]) + stats[|stats| - 1].count
  }

  /** Each stat's count is `count` of its name. */
  predicate CountedBy(stats: seq<ComponentStat>, count: string -> nat) {
    forall i :: 0 <= i < |stats| ==> stats[i].count == count(stats[i].name)
  }

  /* ---------------------------------------------------------------------- */
  /* Sorting stats sorts their names                                         */
  /* ---------------------------------------------------------------------- */

  lemma NamesSnoc(s: seq<ComponentStat>, x: ComponentStat)
    ensures Names(s + [x]) == Names(s) + [x.name]
  {
  }

  lemma {:induction false} NamesInsert(s: seq<ComponentStat>, x: ComponentStat, count: string -> nat)
    requires CountedBy(s, count) && x.count == count(x.name)
    ensures Names(Ranking.InsertByCount(s, x, StatCount)) == Ranking.InsertByCount(Names(s), x.name, count)
  {
    if s == [] {
    } else if StatCount(s[|s| - 1]) >= StatCount(x) {
      NamesSnoc(s, x);
    } else {
      var init := s[..|s| - 1];
      assert Names(init) == Names(s)[..|s| - 1];
      NamesInsert(init, x, count);
      NamesSnoc(Ranking.InsertByCount(init, x, StatCount), s[|s| - 1]);
    }
  }

  lemma {:induction false} InsertCounted(s: seq<ComponentStat>, x: ComponentStat, count: string -> nat)
    requires CountedBy(s, count) && x.count == count(x.name)
    ensures CountedBy(Ranking.InsertByCount(s, x, StatCount), count)
  {
    Ranking.InsertPermutes(s, x, StatCount);
    var r := Ranking.InsertByCount(s, x, StatCount);
    forall i | 0 <= i < |r| ensures r[i].count == count(r[i].name) {
      assert r[i] in multiset(r);
      if r[i] != x {
        assert r[i] in multiset(s);
        var k :| 0 <= k < |s| && s[k] == r[i];
      }
    }
  }

  lemma {:induction false} NamesSort(s: seq<ComponentStat>, count: string -> nat)
    requires CountedBy(s, count)
    ensures CountedBy(Ranking.SortByCount(s, StatCount), count)
    ensures Names(Ranking.SortByCount(s, StatCount)) == Ranking.SortByCount(Names(s), count)
  {
    if s != [] {
      var init := s[..|s| - 1];
      assert Names(init) == Names(s)[..|s| - 1];
      NamesSort(init, count);
      InsertCounted(Ranking.SortByCount(init, StatCount), s[|s| - 1], count);
      NamesInsert(Ranking.SortByCount(init, StatCount), s[|s| - 1], count);
    }
  }

  /* ---------------------------------------------------------------------- */
  /* The counts add up to the number of components                           */
  /* ---------------------------------------------------------------------- */

  lemma {:induction false} TotalInsert(s: seq<ComponentStat>, x: ComponentStat)
    ensures Total(Ranking.InsertByCount(s, x, StatCount)) == Total(s) + x.count
  {
    if s != [] && StatCount(s[|s| - 1]) < StatCount(x) {
      var init := s[..|s| - 1];
      TotalInsert(init, x);
      var r := Ranking.InsertByCount(init, x, StatCount) + [s[|s| - 1]];
      assert r[..|r| - 1] == Ranking.InsertByCount(init, x, StatCount);
    } else {
      var r := s + [x];
      assert r[..|r| - 1] == s;
    }
  }

  lemma {:induction false} TotalSort(s: seq<ComponentStat>)
    ensures Total(Ranking.SortByCount(s, StatCount)) == Total(s)
  {
    if s != [] {
      TotalSort(s[..|s| - 1]);
      TotalInsert(Ranking.SortByCount(s[..|s| - 1], StatCount), s[|s| - 1]);
    }
  }

  /** The sum of `count` over `keys`. */
  function SumOver(keys: seq<string>, count: string -> nat): nat {
    if keys == [] then 0 else SumOver(keys[..|keys| - 1], count) + count(keys[|keys| - 1])
  }

  lemma {:induction false} TotalIsSum(stats: seq<ComponentStat>, count: string -> nat)
    requires CountedBy(stats, count)
    ensures Total(stats) == SumOver(Names(stats), count)
  {
    if stats != [] {
      var init := stats[..|stats| - 1];
      assert Names(init) == Names(stats)[..|stats| - 1];
      TotalIsSum(init, count);
    }
  }

  /** Adding a value raises each listed key's count by how often that key
      is the value. */
  lemma {:induction false} SumOverGrow(keys: seq<string>, values: seq<string>, v: string)
    ensures SumOver(keys, Ranking.Frequency(values + [v]))
      == SumOver(keys, Ranking.Frequency(values)) + multiset(keys)[v]
  {
    if keys != [] {
      SumOverGrow(keys[..|keys| - 1], values, v);
      assert keys == keys[..|keys| - 1] + [keys[|keys| - 1]];
    }
  }

  /** Each value is counted once under its own key. */
  lemma {:induction false} SumOverDistinct(values: seq<string>)
    ensures SumOver(Ranking.Distinct(values), Ranking.Frequency(values)) == |values|
  {
    if values != [] {
      var init := values[..|values| - 1];
      var v := values[|values| - 1];
      assert values == init + [v];
      SumOverDistinct(init);
      var d := Ranking.Distinct(init);
      SumOverGrow(d, init, v);
      if v in d {
        assert v in multiset(d);
      } else {
        assert v !in init;
        var grown := d + [v];
        assert grown[..|grown| - 1] == d;
      }
    }
  }

  /* ---------------------------------------------------------------------- */
  /* Percentages                                                             */
  /* ---------------------------------------------------------------------- */

  /** Every stat's percentage is its share of `total`, between 0 and 100. */
  predicate Shared(stats: seq<ComponentStat>, total: nat) {
    forall i :: 0 <= i < |stats| ==>
      stats[i].percentage == Percentage(stats[i].count, total) && 0 <= stats[i].percentage <= 100
  }

  lemma SharedPermutation(s: seq<ComponentStat>, t: seq<ComponentStat>, total: nat)
    requires multiset(t) == multiset(s) && Shared(s, total)
    ensures Shared(t, total)
  {
    forall i | 0 <= i < |t|
      ensures t[i].percentage == Percentage(t[i].count, total) && 0 <= t[i].percentage <= 100
    {
      assert t[i] in multiset(s);
      var k :| 0 <= k < |s| && s[k] == t[i];
    }
  }

  /** No value occurs more often than there are values. */
  lemma FrequencyAtMostLength(values: seq<string>, x: string)
    ensures Ranking.Frequency(values)(x) <= |values|
  {
    assert multiset(values)[x] <= |multiset(values)|;
  }

  /* ---------------------------------------------------------------------- */
  /* componentStats                                                          */
  /* ---------------------------------------------------------------------- */

  /** `componentStats`: one stat per distinct component with its number of
      uses and its share of all uses, ranked by use like the suggestions. */
  method ComponentStats(entries: seq<MealEntry>) returns (stats: seq<ComponentStat>)
    ensures Ranking.IsRanking(Names(stats), Common.Components(entries))
    ensures CountedBy(stats, Ranking.Frequency(Common.Components(entries)))
    ensures Shared(stats, |Common.Components(entries)|)
    ensures Total(stats) == |Common.Components(entries)|
    ensures forall i, j :: 0 <= i < j < |stats| ==> stats[i].count >= stats[j].count
  {
    var allComponents := Common.Components(entries);
    var total := |allComponents|;
    var names, componentCount := Ranking.Tally(allComponents);
    ghost var frequency := Ranking.Frequency(allComponents);

    var unsorted := seq(|names|, i requires 0 <= i < |names| && names[i] in componentCount =>
      ComponentStat(names[i], componentCount[names[i]], Percentage(componentCount[names[i]], total)));
    assert Names(unsorted) == names;
    assert CountedBy(unsorted, frequency);
    assert Shared(unsorted, total) by {
      forall i | 0 <= i < |unsorted| ensures 0 <= unsorted[i].percentage <= 100 {
        FrequencyAtMostLength(allComponents, names[i]);
        PercentageBounds(unsorted[i].count, total);
      }
    }

    stats := Ranking.SortByCount(unsorted, StatCount);

    NamesSort(unsorted, frequency);
    Ranking.SortIsRanking(allComponents);
    Ranking.SortOrdered(unsorted, StatCount);
    Ranking.SortPermutes(unsorted, StatCount);
    SharedPermutation(unsorted, stats, total);
    TotalSort(unsorted);
    TotalIsSum(unsorted, frequency);
    SumOverDistinct(allComponents);
  }

  /** `maxCount`: the first stat's count, or 0 when there are none. */
  function MaxCount(stats: seq<ComponentStat>): (m: nat)
    ensures stats == [] ==> m == 0
    ensures stats != [] ==> m == stats[0].count
  {
    if |stats| > 0 then stats[0].count else 0
  }

  /** On stats ranked by count, `maxCount` is the largest count. */
  lemma MaxCountIsLargest(stats: seq<ComponentStat>)
    requires forall i, j :: 0 <= i < j < |stats| ==> stats[i].count >= stats[j].count
    ensures forall i :: 0 <= i < |stats| ==> stats[i].count <= MaxCount(stats)
    ensures stats == [] ==> MaxCount(stats) == 0
    ensures stats != [] ==> exists i :: 0 <= i < |stats| && stats[i].count == MaxCount(stats)
  {
    if stats != [] {
      assert stats[0].count == MaxCount(stats);
    }
  }
}
