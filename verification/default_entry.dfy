/**
 * A new entry starts with every field at its default value:
 * `createDefaultEntry` (src/data/createDefaultEntry.ts) and the form for a
 * new entry (src/pages/NewEntryForm.tsx). The fresh id
 * (`crypto.randomUUID()`) and the ISO form of the date are parameters.
 */
module DefaultEntries {
  import opened Wrappers
  import opened Entries

  /** `fields.reduce((current, next) => ({ ...current, [next.name]: next.defaultValue }), {})`. */
  function InitialData(fields: seq<FieldDefinition>): (data: Data)
    ensures fields == [] ==> data == map[]
    ensures fields != [] ==> (fields[|fields| - 1].name in data
      && data[fields[|fields| - 1].name] == Str(fields[|fields| - 1].defaultValue))
  {
    if fields == [] then map[]
    else
      var last := fields[|fields| - 1];
      InitialData(fields[..|fields| - 1])[last.name := Str(last.defaultValue)]
  }

  /** One key per field name and no other. */
  lemma {:induction false} InitialDataKeys(fields: seq<FieldDefinition>)
    ensures forall k :: k in InitialData(fields) <==> exists i :: 0 <= i < |fields| && fields[i].name == k
  {
    if fields != [] {
      var init := fields[..|fields| - 1];
      InitialDataKeys(init);
      assert forall i :: 0 <= i < |init| ==> init[i] == fields[i];
    }
  }

  /** Each key holds the default of the last field with that name. */
  lemma {:induction false} InitialDataLastWins(fields: seq<FieldDefinition>, i: nat)
    requires i < |fields|
    requires forall j :: i < j < |fields| ==> fields[j].name != fields[i].name
    ensures fields[i].name in InitialData(fields)
    ensures InitialData(fields)[fields[i].name] == Str(fields[i].defaultValue)
  {
    var init := fields[..|fields| - 1];
    if i < |fields| - 1 {
      assert init[i] == fields[i];
      InitialDataLastWins(init, i);
    }
  }

  /** Field `i` is the last one with its name. */
  predicate LastOfName(fields: seq<FieldDefinition>, i: int) {
    0 <= i < |fields| && forall j :: i < j < |fields| ==> fields[j].name != fields[i].name
  }

  /** Every field's name holds the default of the last field with that name. */
  lemma InitialDataValues(fields: seq<FieldDefinition>)
    ensures forall i :: LastOfName(fields, i) ==>
      fields[i].name in InitialData(fields) && InitialData(fields)[fields[i].name] == Str(fields[i].defaultValue)
  {
    forall i | LastOfName(fields, i)
      ensures fields[i].name in InitialData(fields) && InitialData(fields)[fields[i].name] == Str(fields[i].defaultValue)
    {
      InitialDataLastWins(fields, i);
    }
  }

  /** `createDefaultEntry(date, token, definition)`: the data has one key per
      field name, holding the default value of the last field of that name. */
  function CreateDefaultEntry(id: string, isoDate: string, token: string, definition: EntryDefinition): (e: Entry)
    ensures definition.fields == [] ==> e.data == map[]
    ensures forall k :: k in e.data <==> exists i :: 0 <= i < |definition.fields| && definition.fields[i].name == k
    ensures forall i :: LastOfName(definition.fields, i) ==>
      e.data[definition.fields[i].name] == Str(definition.fields[i].defaultValue)
    ensures e.data == InitialData(definition.fields)
    ensures e.definitionId == definition.id && e.definition == definition && e.userToken == token
    ensures e.id == id && e.date == isoDate
  {
    InitialDataKeys(definition.fields);
    InitialDataValues(definition.fields);
    Entry(id, InitialData(definition.fields), isoDate, definition.id, definition, token)
  }

  /** `definitions?.find((d) => d.id === definitionId)`: the first definition
      with that id. */
  function FindDefinition(definitions: Option<seq<EntryDefinition>>, definitionId: string): (r: Option<EntryDefinition>)
    ensures r.None? <==> (definitions.None? || forall i :: 0 <= i < |definitions.value| ==> definitions.value[i].id != definitionId)
    ensures r.Some? ==> r.value.id == definitionId && r.value in definitions.value
    ensures r.Some? ==> exists k :: (0 <= k < |definitions.value| && definitions.value[k] == r.value
      && forall j :: 0 <= j < k ==> definitions.value[j].id != definitionId)
  {
    if definitions.None? then None else FindIn(definitions.value, definitionId)
  }

  function FindIn(definitions: seq<EntryDefinition>, definitionId: string): (r: Option<EntryDefinition>)
    ensures r.None? <==> forall i :: 0 <= i < |definitions| ==> definitions[i].id != definitionId
    ensures r.Some? ==> r.value.id == definitionId && r.value in definitions
    ensures r.Some? ==> exists k :: (0 <= k < |definitions| && definitions[k] == r.value
      && forall j :: 0 <= j < k ==> definitions[j].id != definitionId)
  {
    if definitions == [] then None
    else if definitions[0].id == definitionId then Some(definitions[0])
    else
      var r := FindIn(definitions[1..], definitionId);
      assert forall i :: 1 <= i < |definitions| ==> definitions[i] == definitions[1..][i - 1];
      if r.Some? then
        var k :| 0 <= k < |definitions| - 1 && definitions[1..][k] == r.value
          && forall j :: 0 <= j < k ==> definitions[1..][j].id != definitionId;
        assert definitions[k + 1] == r.value;
        r
      else r
  }

  /** The entry the new-entry form starts from, or nothing when the
      definition is unknown or has no fields. */
  function NewEntry(definitions: Option<seq<EntryDefinition>>, definitionId: string,
                    id: string, isoDate: string, token: string): (r: Option<Entry>)
    ensures r.None? <==> (FindDefinition(definitions, definitionId).None?
      || |FindDefinition(definitions, definitionId).value.fields| < 1)
    ensures r.Some? ==> (r.value.definitionId == definitionId
      && r.value.definition == FindDefinition(definitions, definitionId).value
      && r.value.userToken == token
      && r.value.data == InitialData(r.value.definition.fields))
  {
    var definition := FindDefinition(definitions, definitionId);
    if definition.None? || |definition.value.fields| < 1 then None
    else Some(Entry(id, InitialData(definition.value.fields), isoDate, definitionId, definition.value, token))
  }

  /** The form builds the same entry `createDefaultEntry` would. */
  lemma NewEntryIsDefault(definitions: Option<seq<EntryDefinition>>, definitionId: string,
                          id: string, isoDate: string, token: string)
    requires NewEntry(definitions, definitionId, id, isoDate, token).Some?
    ensures NewEntry(definitions, definitionId, id, isoDate, token)
      == Some(CreateDefaultEntry(id, isoDate, token, FindDefinition(definitions, definitionId).value))
  {
  }
}
