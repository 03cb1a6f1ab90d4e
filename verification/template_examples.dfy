/**
 * The templates of src/lib/__tests__/templates.test.ts and
 * src/lib/__tests__/expressionsTemplates.test.ts, expanded through the
 * lemmas of `Templates`.
 */
module TemplateExamples {
  import opened Wrappers
  import opened Templates
  import Expressions
  import ExpressionExamples

  /** A resolver that answers "John" for every key. */
  function John(key: string): string {
    "John"
  }

  /** `{friend_name}` is replaced and the rest is copied. */
  lemma FriendExample()
    ensures Expand("Hello how are you my " + Braced("friend_name") + " today?", John)
      == "Hello how are you my " + "John" + " today?"
    ensures KeysOf("Hello how are you my " + Braced("friend_name") + " today?") == ["friend_name"]
  {
    OnePlaceholder("Hello how are you my ", "friend_name", " today?", John);
  }

  /** Text, a placeholder, text, a placeholder, text. */
  lemma TwoPlaceholders(p1: string, k1: string, p2: string, k2: string, q: string, replace: string -> string)
    requires '{' !in p1 && '}' !in k1 && '{' !in p2 && '}' !in k2 && '{' !in q
    ensures Expand(p1 + Braced(k1) + p2 + Braced(k2) + q, replace)
      == p1 + replace(k1) + p2 + replace(k2) + q
    ensures KeysOf(p1 + Braced(k1) + p2 + Braced(k2) + q) == [k1, k2]
  {
    var second := p2 + Braced(k2) + q;
    assert p1 + Braced(k1) + p2 + Braced(k2) + q == p1 + ("{" + k1 + "}" + second);
    LiteralPrefix(p1, "{" + k1 + "}" + second, replace);
    ClosedPlaceholder(k1, second, replace);
    OnePlaceholder(p2, k2, q, replace);
  }

  /** The weather resolver, with the number 25 already rendered as text. */
  function Weather(key: string): string {
    if key == "weather" then "sunny"
    else if key == "temp" then "25"
    else "never"
  }

  /** Two placeholders, each replaced by its own answer. */
  lemma WeatherExample()
    ensures Expand("The weather is " + Braced("weather") + " and temperature is " + Braced("temp") + "°C", Weather)
      == "The weather is " + "sunny" + " and temperature is " + "25" + "°C"
    ensures KeysOf("The weather is " + Braced("weather") + " and temperature is " + Braced("temp") + "°C")
      == ["weather", "temp"]
  {
    TwoPlaceholders("The weather is ", "weather", " and temperature is ", "temp", "°C", Weather);
  }

  /** A resolver that answers the empty string. */
  function Nothing(key: string): string {
    ""
  }

  /** An unterminated placeholder is kept as written and nothing is asked. */
  lemma IncompleteExample()
    ensures Expand("Incomplete key " + "{" + "still works", Nothing) == "Incomplete key " + "{" + "still works"
    ensures KeysOf("Incomplete key " + "{" + "still works") == []
  {
    UnclosedAfter("Incomplete key ", "still works", Nothing);
  }

  /** A placeholder whose key is an expression, evaluated with every name
      standing for 8; `show` renders the outcome as text. */
  lemma ExpressionExample(show: Result<real, Expressions.ParseError> -> string)
    ensures var replace := (key: string) => show(Expressions.Evaluate(key, ExpressionExamples.Constant(8.0)));
      Expand("The value is " + Braced("12 + 3 + pansen") + "! Congratulations", replace)
      == "The value is " + show(Ok(23.0)) + "! Congratulations"
  {
    var replace := (key: string) => show(Expressions.Evaluate(key, ExpressionExamples.Constant(8.0)));
    OnePlaceholder("The value is ", "12 + 3 + pansen", "! Congratulations", replace);
    ExpressionExamples.EightEachExample();
  }
}
