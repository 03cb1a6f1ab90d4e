/**
 * The resolvers that answer template and rating-expression placeholders
 * from an entry's data: src/data/createNumberReplacer.tsx and
 * src/data/createReplacer.tsx. A placeholder key is snake_case; it is
 * turned into the camelCase field name before both the data lookup and the
 * field lookup.
 */
module Replacers {
  import opened Wrappers
  import opened Entries
  import Chars
  import Utils

  /* ---------------------------------------------------------------------- */
  /* createNumberReplacer                                                    */
  /* ---------------------------------------------------------------------- */

  /** `choices.find((c) => c.value === value)?.modifier ?? 0`. */
  function ChoiceModifier(choices: seq<ChoiceItem>, value: Value): (r: real)
    ensures FindChoice(choices, value).None? ==> r == 0.0
    ensures FindChoice(choices, value).Some? && FindChoice(choices, value).value.modifier.None? ==> r == 0.0
    ensures FindChoice(choices, value).Some? && FindChoice(choices, value).value.modifier.Some?
      ==> r == FindChoice(choices, value).value.modifier.value
  {
    match FindChoice(choices, value)
    case None => 0.0
    case Some(c) => if c.modifier.Some? then c.modifier.value else 0.0
  }

  /** The number the field called `fieldName` contributes. */
  function FieldNumber(fields: seq<FieldDefinition>, data: Data, fieldName: string): (r: real)
    ensures FindField(fields, fieldName).None? ==> r == 0.0
    ensures var field := FindField(fields, fieldName);
      field.Some? && field.value.fieldType == Choice ==> r == ChoiceModifier(field.value.choices, Get(data, fieldName))
    ensures var field := FindField(fields, fieldName);
      field.Some? && field.value.fieldType == Boolean ==> r == if Truthy(Get(data, fieldName)) then 1.0 else 0.0
    ensures var field := FindField(fields, fieldName);
      field.Some? && field.value.fieldType !in {Choice, Boolean} ==> r == 0.0
    ensures var field := FindField(fields, fieldName);
      r == 0.0 || r == 1.0 || (field.Some? && exists c :: c in field.value.choices && c.modifier == Some(r))
  {
    var value := Get(data, fieldName);
    match FindField(fields, fieldName)
    case None => 0.0
    case Some(field) =>
      match field.fieldType
      case Choice =>
        var r := ChoiceModifier(field.choices, value);
        assert FindChoice(field.choices, value).Some? ==> FindChoice(field.choices, value).value in field.choices;
        r
      case Boolean => if Truthy(value) then 1.0 else 0.0
      case ComboMultiChoice => 0.0
      case MultiChoice => 0.0
      case Checkbox => 0.0
      case Date => 0.0
      case Text => 0.0
  }

  /** `createNumberReplacer(definition, data)(key)`. */
  function NumberFor(definition: EntryDefinition, data: Data, key: string): (r: real)
    ensures (forall i :: 0 <= i < |definition.fields| ==> definition.fields[i].name != Utils.SnakeToCamel(key))
      ==> r == 0.0
    ensures r == 0.0 || r == 1.0
      || exists i, c :: (0 <= i < |definition.fields| && definition.fields[i].name == Utils.SnakeToCamel(key)
        && c in definition.fields[i].choices && c.modifier == Some(r))
  {
    FieldNumber(definition.fields, data, Utils.SnakeToCamel(key))
  }

  /** `createNumberReplacer(definition, data)`, the resolver for a rating expression. */
  function NumberReplacer(definition: EntryDefinition, data: Data): (resolve: string -> real)
    ensures forall key :: resolve(key) == NumberFor(definition, data, key)
  {
    key => NumberFor(definition, data, key)
  }

  /* ---------------------------------------------------------------------- */
  /* createReplacer                                                          */
  /* ---------------------------------------------------------------------- */

  /** What `(value as string[]).slice(0, 3).join(", ")` throws on a value
      that is not an array. */
  datatype Thrown = TypeError

  /** `choices.find((c) => c.value === value)?.title ?? "<unknown>"`. */
  function ChoiceTitle(choices: seq<ChoiceItem>, value: Value): (r: string)
    ensures FindChoice(choices, value).None? ==> r == "<unknown>"
    ensures FindChoice(choices, value).Some? ==> r == FindChoice(choices, value).value.title
  {
    match FindChoice(choices, value)
    case None => "<unknown>"
    case Some(c) => c.title
  }

  /** `items.slice(0, 3)`: the first three items of a list, or all of them
      when there are fewer. */
  function FirstThree(items: seq<string>): (r: seq<string>)
    ensures r <= items
    ensures |r| == if |items| < 3 then |items| else 3
  {
    if |items| <= 3 then items else items[..3]
  }

  /** The text the field called `fieldName` renders as; `key` is what a
      missing field renders as. */
  function FieldText(fields: seq<FieldDefinition>, data: Data, fieldName: string, key: string): (r: Result<Value, Thrown>)
    ensures FindField(fields, fieldName).None? ==> r == Ok(Str(key))
    ensures var field := FindField(fields, fieldName);
      field.Some? && field.value.fieldType == Choice ==> r == Ok(Str(ChoiceTitle(field.value.choices, Get(data, fieldName))))
    ensures var field := FindField(fields, fieldName); var value := Get(data, fieldName);
      field.Some? && field.value.fieldType == ComboMultiChoice ==>
        (value.List? ==> r == Ok(Str(Chars.Join(FirstThree(value.items), ", "))))
        && (!value.List? ==> r == Err(TypeError))
    ensures var field := FindField(fields, fieldName);
      field.Some? && field.value.fieldType in {MultiChoice, Checkbox, Date, Text} ==> r == Ok(Get(data, fieldName))
    ensures var field := FindField(fields, fieldName);
      field.Some? && field.value.fieldType == Boolean ==> r == Ok(Undefined)
  {
    var value := Get(data, fieldName);
    match FindField(fields, fieldName)
    case None => Ok(Str(key))
    case Some(field) =>
      match field.fieldType
      case Choice => Ok(Str(ChoiceTitle(field.choices, value)))
      case ComboMultiChoice =>
        if value.List? then Ok(Str(Chars.Join(FirstThree(value.items), ", "))) else Err(TypeError)
      case MultiChoice => Ok(value)
      case Checkbox => Ok(value)
      case Date => Ok(value)
      case Text => Ok(value)
      case Boolean => Ok(Undefined)
  }

  /** `createReplacer(definition, data)(key)`. */
  function TextFor(definition: EntryDefinition, data: Data, key: string): (r: Result<Value, Thrown>)
    ensures (forall i :: 0 <= i < |definition.fields| ==> definition.fields[i].name != Utils.SnakeToCamel(key))
      ==> r == Ok(Str(key))
    ensures r.Err? ==> exists i :: (0 <= i < |definition.fields| && definition.fields[i].name == Utils.SnakeToCamel(key)
      && definition.fields[i].fieldType == ComboMultiChoice)
  {
    FieldText(definition.fields, data, Utils.SnakeToCamel(key), key)
  }

  /* ---------------------------------------------------------------------- */
  /* Placeholders name fields                                                */
  /* ---------------------------------------------------------------------- */

  /** A placeholder spelled as the snake_case form of a camelCase field name
      resolves, in both resolvers, to that very field. */
  lemma PlaceholderNamesField(definition: EntryDefinition, data: Data, name: string)
    requires Utils.CamelWord(name)
    ensures NumberFor(definition, data, Utils.CamelToSnake(name)) == FieldNumber(definition.fields, data, name)
    ensures TextFor(definition, data, Utils.CamelToSnake(name))
      == FieldText(definition.fields, data, name, Utils.CamelToSnake(name))
  {
    Utils.SnakeCamelRoundTrip(name);
  }

  /** A combo field renders exactly its first three items (all of them when
      there are fewer), joined by ", ". */
  lemma ComboShowsFirstThree(fields: seq<FieldDefinition>, data: Data, fieldName: string, key: string)
    requires FindField(fields, fieldName).Some? && FindField(fields, fieldName).value.fieldType == ComboMultiChoice
    requires Get(data, fieldName).List?
    ensures exists shown :: (shown <= Get(data, fieldName).items
      && |shown| == (if |Get(data, fieldName).items| < 3 then |Get(data, fieldName).items| else 3)
      && FieldText(fields, data, fieldName, key) == Ok(Str(Chars.Join(shown, ", "))))
  {
    var shown := FirstThree(Get(data, fieldName).items);
    assert FieldText(fields, data, fieldName, key) == Ok(Str(Chars.Join(shown, ", ")));
  }
}
