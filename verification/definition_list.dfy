/**
 * The list of entry definitions (src/pages/DefinitionListPage.tsx): entries
 * are counted per definition id, and a copy of the definitions is shown
 * with the most used first.
 */
module DefinitionList {
  import opened Wrappers
  import opened Entries
  import Ranking

  /** The definition ids of the entries, in order. */
  function DefinitionIds(entries: seq<Entry>): (ids: seq<string>)
    ensures |ids| == |entries| && forall i :: 0 <= i < |entries| ==> ids[i] == entries[i].definitionId
  {
    seq(|entries|, i requires 0 <= i < |entries| => entries[i].definitionId)
  }

  /** `entryCountByDefinition[id] || 0`: a missing id reads as `undefined`,
      which counts as 0. */
  function EntryCount(counts: map<string, nat>, id: string): (n: nat)
    ensures id in counts ==> n == counts[id]
    ensures id !in counts ==> n == 0
  {
    if id in counts then counts[id] else 0
  }

  /** `entryCountByDefinition`: the `reduce` that counts entries per
      definition id, skipping an entry whose id is the empty string. */
  method CountByDefinition(entries: seq<Entry>) returns (counts: map<string, nat>)
    ensures forall id :: id in counts <==> id != "" && id in DefinitionIds(entries)
    ensures forall id :: id != "" ==> EntryCount(counts, id) == multiset(DefinitionIds(entries))[id]
    ensures EntryCount(counts, "") == 0
  {
    counts := map[];
    for i := 0 to |entries|
      invariant forall id :: id in counts <==> id != "" && id in DefinitionIds(entries[..i])
      invariant forall id :: id != "" ==> EntryCount(counts, id) == multiset(DefinitionIds(entries[..i]))[id]
    {
      var entry := entries[i];
      assert DefinitionIds(entries[..i + 1]) == DefinitionIds(entries[..i]) + [entry.definitionId];
      if entry.definitionId != "" {
        var current := if entry.definitionId in counts then counts[entry.definitionId] else 0;
        counts := counts[entry.definitionId := current + 1];
      }
    }
    assert entries[..|entries|] == entries;
  }

  /** The sort key of a definition. */
  function UseCount(counts: map<string, nat>): EntryDefinition -> nat {
    (d: EntryDefinition) => EntryCount(counts, d.id)
  }

  /** The definitions shown, `(definitions || []).slice().sort(...)`: a
      stable sort of a copy by entry count, largest first. */
  function ByUse(definitions: Option<seq<EntryDefinition>>, counts: map<string, nat>): (r: seq<EntryDefinition>)
    ensures multiset(r) == multiset(if definitions.Some? then definitions.value else [])
  {
    var all := if definitions.Some? then definitions.value else [];
    Ranking.SortPermutes(all, UseCount(counts));
    Ranking.SortByCount(all, UseCount(counts))
  }

  /** The list shown is a permutation of the definitions (none when there
      are none), with counts never increasing, and definitions used equally
      often in their original order. */
  lemma ByUseFacts(definitions: Option<seq<EntryDefinition>>, counts: map<string, nat>)
    ensures definitions.None? ==> ByUse(definitions, counts) == []
    ensures definitions.Some? ==> multiset(ByUse(definitions, counts)) == multiset(definitions.value)
    ensures forall i, j :: 0 <= i < j < |ByUse(definitions, counts)| ==>
      EntryCount(counts, ByUse(definitions, counts)[i].id) >= EntryCount(counts, ByUse(definitions, counts)[j].id)
    ensures definitions.Some? ==> forall n: nat ::
      Ranking.WithCount(ByUse(definitions, counts), UseCount(counts), n)
      == Ranking.WithCount(definitions.value, UseCount(counts), n)
  {
    var all := if definitions.Some? then definitions.value else [];
    var count := UseCount(counts);
    Ranking.SortPermutes(all, count);
    Ranking.SortOrdered(all, count);
    forall n: nat ensures Ranking.WithCount(Ranking.SortByCount(all, count), count, n) == Ranking.WithCount(all, count, n) {
      Ranking.SortStable(all, count, n);
    }
  }
}
