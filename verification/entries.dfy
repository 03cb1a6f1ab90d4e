/**
 * The records the app stores: entry definitions with their fields and
 * choices (src/data/EntryDefinition.ts), entries built from them, and meal
 * entries (src/data/meals.ts).
 */
module Entries {
  import opened Wrappers

  /** A stored field value, typed `unknown` in the app: what JSON brings back,
      or `undefined` for a key that is not there. */
  datatype Value = Undefined | Null | Str(s: string) | Num(n: real) | Bool(b: bool) | List(items: seq<string>)

  /** JavaScript truthiness of a stored value (an array is always truthy). */
  predicate Truthy(v: Value): (t: bool)
    ensures !t <==> v in {Undefined, Null, Str(""), Num(0.0), Bool(false)}
  {
    match v
    case Undefined => false
    case Null => false
    case Str(s) => s != ""
    case Num(n) => n != 0.0
    case Bool(b) => b
    case List(_) => true
  }

  /** `===` on stored values: primitives by value; two arrays read from
      storage are distinct objects and never identical. */
  predicate StrictEquals(a: Value, b: Value): (eq: bool)
    ensures eq ==> a == b
    ensures a.List? || b.List? ==> !eq
    ensures !a.List? ==> (eq <==> a == b)
  {
    !a.List? && !b.List? && a == b
  }

  datatype FieldType = Text | Checkbox | Date | Choice | MultiChoice | ComboMultiChoice | Boolean

  /** One option of a `choice` field; `modifier` feeds the rating expression. */
  datatype ChoiceItem = ChoiceItem(key: string, title: string, value: Value, modifier: Option<real>)

  datatype FieldDefinition = FieldDefinition(
    id: string,
    name: string,
    fieldType: FieldType,
    isRequired: bool,
    labelText: string,
    description: string,
    choices: seq<ChoiceItem>,
    order: real,
    defaultValue: string,
    definitionId: string)

  datatype EntryDefinition = EntryDefinition(
    id: string,
    name: string,
    description: string,
    iconName: Option<string>,
    fields: seq<FieldDefinition>,
    titleTemplate: string,
    subtitleTemplate: string,
    ratingExpression: string)

  /** `Record<string, unknown>`. */
  type Data = map<string, Value>

  datatype Entry = Entry(
    id: string,
    data: Data,
    date: string,
    definitionId: string,
    definition: EntryDefinition,
    userToken: string)

  datatype MealEntry = MealEntry(
    id: string,
    components: seq<string>,
    healthRating: string,
    portionSize: string,
    mealType: string,
    userToken: string)

  /** `data[key]`: a missing key reads as `undefined`. */
  function Get(data: Data, key: string): (v: Value)
    ensures key !in data ==> v == Undefined
    ensures key in data ==> v == data[key]
  {
    if key in data then data[key] else Undefined
  }

  /** `fields.find((f) => f.name === name)`: the first field with that name. */
  function FindField(fields: seq<FieldDefinition>, name: string): (r: Option<FieldDefinition>)
    ensures r.None? <==> forall i :: 0 <= i < |fields| ==> fields[i].name != name
    ensures r.Some? ==> exists i :: (0 <= i < |fields| && fields[i] == r.value && fields[i].name == name
      && forall j :: 0 <= j < i ==> fields[j].name != name)
  {
    if fields == [] then None
    else if fields[0].name == name then Some(fields[0])
    else
      var r := FindField(fields[1..], name);
      assert forall j :: 1 <= j < |fields| ==> fields[j] == fields[1..][j - 1];
      r
  }

  /** `choices.find((c) => c.value === value)`: the first matching choice. */
  function FindChoice(choices: seq<ChoiceItem>, value: Value): (r: Option<ChoiceItem>)
    ensures r.None? <==> forall i :: 0 <= i < |choices| ==> !StrictEquals(choices[i].value, value)
    ensures r.Some? ==> exists i :: (0 <= i < |choices| && choices[i] == r.value && StrictEquals(choices[i].value, value)
      && forall j :: 0 <= j < i ==> !StrictEquals(choices[j].value, value))
  {
    if choices == [] then None
    else if StrictEquals(choices[0].value, value) then Some(choices[0])
    else
      var r := FindChoice(choices[1..], value);
      assert forall j :: 1 <= j < |choices| ==> choices[j] == choices[1..][j - 1];
      r
  }
}
