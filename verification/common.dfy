/**
 * The suggestions offered when picking choices: `getCommonChoices`
 * (src/data/getCommonChoices.ts) ranks the values every entry stores under
 * a field, `getCommonComponents` (src/data/getCommonComponents.ts) the
 * components of meal entries. With nothing to rank, both suggest
 * "Pizza" and "Salat".
 */
module Common {
  import opened Entries
  import opened Ranking

  /** `[v].flat(1)`: an array contributes its items, any other value (an
      entry without the field included, as `undefined`) contributes itself. */
  function Flat(v: Value): (r: seq<Value>)
    ensures v.List? ==> |r| == |v.items| && forall i :: 0 <= i < |r| ==> r[i] == Str(v.items[i])
    ensures !v.List? ==> r == [v]
  {
    if v.List? then seq(|v.items|, i requires 0 <= i < |v.items| => Str(v.items[i])) else [v]
  }

  /** `allEntries.map((e) => e.data[fieldName]).flat(1)`. */
  function FieldValues(allEntries: seq<Entry>, fieldName: string): (r: seq<Value>)
    ensures forall v :: v in r <==> exists e :: e in allEntries && v in Flat(Get(e.data, fieldName))
  {
    if allEntries == [] then []
    else
      assert allEntries == [allEntries[0]] + allEntries[1..];
      Flat(Get(allEntries[0].data, fieldName)) + FieldValues(allEntries[1..], fieldName)
  }

  /** Every entry contributes to the values: one without the field
      contributes `undefined`, so the fallback is only ever offered when
      there are no entries or every entry stores an empty list. */
  lemma {:induction false} MissingFieldCounted(allEntries: seq<Entry>, fieldName: string, k: nat)
    requires k < |allEntries| && fieldName !in allEntries[k].data
    ensures Undefined in FieldValues(allEntries, fieldName)
  {
    if k > 0 {
      MissingFieldCounted(allEntries[1..], fieldName, k - 1);
    }
  }

  /** `getCommonChoices(field, allEntries)`. */
  method CommonChoices(field: FieldDefinition, allEntries: seq<Entry>) returns (r: seq<Value>)
    ensures FieldValues(allEntries, field.name) == [] ==> r == [Str("Pizza"), Str("Salat")]
    ensures FieldValues(allEntries, field.name) != [] ==> IsRanking(r, FieldValues(allEntries, field.name))
    ensures FieldValues(allEntries, field.name) != [] ==>
      (forall x :: x in r <==> x in FieldValues(allEntries, field.name)) && forall x :: multiset(r)[x] <= 1
  {
    var allComponents := FieldValues(allEntries, field.name);
    if |allComponents| == 0 {
      return [Str("Pizza"), Str("Salat")];
    }
    r := RankByFrequency(allComponents);
    RankingDistinct(r, allComponents);
  }

  /** `allEntries.flatMap((e) => e.components)`. */
  function Components(allEntries: seq<MealEntry>): (r: seq<string>)
    ensures forall c :: c in r <==> exists e :: e in allEntries && c in e.components
  {
    if allEntries == [] then []
    else
      assert allEntries == [allEntries[0]] + allEntries[1..];
      allEntries[0].components + Components(allEntries[1..])
  }

  /** Every component of every meal is counted. */
  lemma {:induction false} ComponentsOfEach(allEntries: seq<MealEntry>, k: nat, c: string)
    requires k < |allEntries| && c in allEntries[k].components
    ensures c in Components(allEntries)
  {
    if k > 0 {
      ComponentsOfEach(allEntries[1..], k - 1, c);
    }
  }

  /** `getCommonComponents(allEntries)`. */
  method CommonComponents(allEntries: seq<MealEntry>) returns (r: seq<string>)
    ensures Components(allEntries) == [] ==> r == ["Pizza", "Salat"]
    ensures Components(allEntries) != [] ==> IsRanking(r, Components(allEntries))
    ensures Components(allEntries) != [] ==>
      (forall x :: x in r <==> x in Components(allEntries)) && forall x :: multiset(r)[x] <= 1
  {
    var allComponents := Components(allEntries);
    if |allComponents| == 0 {
      return ["Pizza", "Salat"];
    }
    r := RankByFrequency(allComponents);
    RankingDistinct(r, allComponents);
  }
}
