# mindful-bites: the expression engine and its data rules, in Dafny

mindful-bites is a small journaling app: users define entry types (meals,
moods, ...) whose fields are choices, booleans, lists of components and so
on, record entries against those definitions, and see them in a calendar,
an agenda and a statistics page. A definition can carry a rating
expression such as `portion + health * 2`, which is evaluated with the
entry's field values to colour the entry, and text templates such as
`"{meal_type} with {components}"` whose placeholders are filled from the
same fields.

This project models, and proves properties of:

- **The expression engine** (`src/lib/expressions.ts`). It has three parts:
  - a lexer, `Expressions.LexFrom`;
  - a recursive-descent evaluator over a token sequence and a cursor
    (`Expressions.AddSub`, `MulDiv`, `Term`);
  - the `ExpressionParser` class itself, with its mutable `tokens` and
    `position` fields, whose methods are proved to compute exactly what
    those functions say.

  The evaluator has five errors, one per exception the source throws, and
  the variable resolver is a function parameter. A ghost log records the
  resolver's calls. Beside the engine there are:
  - the lexer's properties (`LexerFacts`);
  - a grammar theorem (`Grammar`): the parser computes the value of every
    precedence-respecting syntax tree from its tokens;
  - the repository's test cases as lemmas (`ExpressionExamples`).
- **The template scanner** (`src/lib/templates.ts`), as the source's
  two nested loops (`Templates.Evaluate`). They are proved equal to a
  segment-based reference (`Templates.Expand`). Alongside that:
  - `Templates.Expand`'s own laws: how literals, placeholders and an
    unclosed `{` behave, and which keys the resolver is asked for;
  - the tests (`TemplateExamples`).
- **Case conversion** (`src/lib/utils.ts`, `netlify/utils.ts`): `camelToSnake`
  and `snakeToCamel`. Each is proved equal to a character-by-character
  reading of its regular expression (`Utils.Marked`, `Utils.Camelled`).
  Also proved: idempotence of `camelToSnake`, and the round trip on
  camelCase names.
- **Field resolvers** (`createNumberReplacer`, `createReplacer`) and
  **colour banding** (`getRating`, `getEnryScore`, `getMealScore`).
- **Frequency rankings** (`getCommonChoices`, `getCommonComponents`, the
  definition list, the component statistics). All of them count and then
  stable-sort by count. The definition list counts into a plain object
  read with `|| 0` (`DefinitionList.EntryCount`); the others count with a
  `Map`. A shared `Ranking` module proves the
  sort a stable, count-descending permutation.
- **Default entries** (`createDefaultEntry`, the new-entry form).
- **The entry forms**: the comma-separated "add components" merge (a loop
  over a set and a list), removal of a component, and the in-place sort
  of the field definitions by `order` (an `array` method).
- **The page helpers**:
  - the agenda's nested year/month/day grouping and its descending key
    order;
  - the calendar's per-date grouping, day filter, definition selection and
    menu routing;
  - the routes of `src/App.tsx` (`Routes`): how a path is matched against
    each route pattern, and which page and parameters the `<Switch>` gives.

Numbers are exact `real`s (or `int`s where the source only ever adds whole
numbers). Stored field values are a `Value` datatype: a string, a number,
a boolean, a list of strings, `null` or `undefined`.

## Model

| member | source | states |
|---|---|---|
| Expressions.Scan | src/lib/expressions.ts:37-100 | one turn of the tokenizer loop either stops at an error or advances past at least one character |
| Expressions.LexFrom | src/lib/expressions.ts:33-104 | tokenizing from an index fails only with UnexpectedCharacter at a position at or after that index and inside the input; LexerFacts states the rest |
| Expressions.Lex | src/lib/expressions.ts:33-104 | `tokenize` fails only with UnexpectedCharacter at a position inside the input, and blank input has no tokens |
| Expressions.LexBlank | src/lib/expressions.ts:40-44 | whitespace alone gives no tokens, from any index |
| Expressions.ReadNumber | src/lib/expressions.ts:47-59 | the inner loop collects exactly the maximal `[0-9.]` run from the start index and stops at its end |
| Expressions.ReadName | src/lib/expressions.ts:84-96 | the inner loop collects exactly the maximal `[a-zA-Z0-9_]` run from the start index and stops at its end |
| Expressions.ExpressionParser.Tokenize | src/lib/expressions.ts:33-104 | the loop yields exactly the token list of the lexer, or its error at the first character that starts no token |
| Expressions.ExpressionParser.constructor | src/lib/expressions.ts:23-25 | the parser keeps the given resolver, has no tokens, its cursor at 0 and no resolver calls |
| Expressions.ExpressionParser.Parse | src/lib/expressions.ts:27-31 | re-tokenizes, resets the cursor and returns exactly `Evaluate(expression, resolver)` whatever earlier calls did; on success the stored tokens are the lexer's and the resolver was called once per VARIABLE token consumed, in order |
| Expressions.ExpressionParser.ParseExpression | src/lib/expressions.ts:106-108 | the outcome and the new cursor are those of `parseAddSubtract` from the old cursor, and the resolver log grows by the consumed variables |
| Expressions.ExpressionParser.ParseAddSubtract | src/lib/expressions.ts:110-134 | computes the left-grouped sum or difference of products that the functional evaluator gives, leaves the cursor where it stops, logs the consumed variables in order |
| Expressions.ExpressionParser.ParseMultiplyDivide | src/lib/expressions.ts:136-163 | the same for left-grouped products and quotients, failing with DivisionByZero when a right operand is 0 |
| Expressions.ExpressionParser.ParseTerm | src/lib/expressions.ts:165-205 | a number, a resolved variable, a parenthesised expression or a negated term; UnexpectedEnd with no token left, MissingClosingParenthesis, UnexpectedToken with the token's position otherwise |
| Expressions.AddSub | src/lib/expressions.ts:110-134 | a successful `parseAddSubtract` consumes at least one token and stays within the tokens |
| Expressions.MulDiv | src/lib/expressions.ts:136-163 | a successful `parseMultiplyDivide` consumes at least one token and stays within the tokens |
| Expressions.Term | src/lib/expressions.ts:165-205 | a successful `parseTerm` consumes at least one token and stays within the tokens |
| Expressions.NumberValue | src/lib/expressions.ts:172-175 | `parseFloat` of a literal is at least the value of its leading digits (the fraction adds nothing negative) |
| Expressions.Evaluate | src/lib/expressions.ts:27-31 | `parse` throws the tokenizer's error when tokenizing fails and UnexpectedEnd on an input without tokens; Grammar.EvalSpelled gives the value of every well-formed expression |
| Expressions.EvalTokens | src/lib/expressions.ts:27-31 | `parseExpression` on no tokens throws UnexpectedEnd, and on a first token that cannot begin a term throws UnexpectedToken with that token's position and text |
| Expressions.StrayToken | src/lib/expressions.ts:165-205 | a token that cannot begin a term (a `)`, or an operator other than `-`) is rejected with UnexpectedToken at its own position by `parseTerm`, `parseMultiplyDivide` and `parseAddSubtract` alike |
| Expressions.NoTermLeft | src/lib/expressions.ts:165-170 | a term expected after the last token makes all three levels throw UnexpectedEnd |
| Expressions.Unclosed | src/lib/expressions.ts:183-191 | a `(` whose inner expression runs to the end of the tokens throws MissingClosingParenthesis |
| Expressions.LoggedNames | src/lib/expressions.ts:177-180 | the resolver log over a stretch of tokens from the start is the VARIABLE token texts appended in order |
| LexerFacts.ScanFacts | src/lib/expressions.ts:37-100 | whitespace is skipped one character at a time; a token is emitted at the current index, well shaped, and scanning resumes right after it; only a non-whitespace character that starts no token stops the scan, with UnexpectedCharacter at its index |
| LexerFacts.NumberShaped | src/lib/expressions.ts:47-61 | a NUMBER token is a maximal `[0-9.]` run that starts with a digit |
| LexerFacts.NameShaped | src/lib/expressions.ts:84-98 | a VARIABLE token is a maximal `[a-zA-Z_][a-zA-Z0-9_]*` run |
| LexerFacts.LexShapes | src/lib/expressions.ts:47-98 | every token of a successful scan is well shaped, and their positions strictly increase |
| LexerFacts.LexTexts | src/lib/expressions.ts:37-103 | a successful scan loses only whitespace: the token texts joined are the input with its whitespace removed |
| LexerFacts.LexError | src/lib/expressions.ts:100 | tokenizing fails only at a non-whitespace character that starts no token, and the error names that character and its index |
| LexerFacts.LexForeign | src/lib/expressions.ts:37-100 | a character that can stand in no token makes tokenizing fail wherever it is |
| ExpressionExamples.NumberValueNonNegative | src/lib/expressions.ts:172-175 | a number literal's value is never negative (and never NaN, since the text starts with a digit) |
| ExpressionExamples.WholeNumber | src/lib/expressions.ts:172-175 | a literal of digits only is read as that whole number |
| ExpressionExamples.OneDigit | src/lib/expressions.ts:172-175 | a single digit is read as its own value |
| ExpressionExamples.TwoDigits | src/lib/expressions.ts:172-175 | two digits are read as tens and units |
| ExpressionExamples.SecondPointIgnored | src/lib/expressions.ts:51-59 | a second `.` ends the value: the literal `1.2.3` is read as 1.2 |
| ExpressionExamples.SumExample | src/lib/__tests__/expressions.test.ts:5-9 | `12 + 3` evaluates to 15 |
| ExpressionExamples.PrecedenceExample | src/lib/__tests__/expressions.test.ts:10-14 | `12 + 3 * 5` evaluates to 27 |
| ExpressionExamples.VariablesExample | src/lib/__tests__/expressions.test.ts:16-29 | `pansen + fisch + 13` evaluates to 90 with `pansen` 33 and `fisch` 44 |
| ExpressionExamples.EightEachExample | src/lib/__tests__/expressionsTemplates.test.ts:7-10 | `12 + 3 + pansen` evaluates to 23 when every variable is 8 |
| ExpressionExamples.DoubleNegationExample | src/lib/expressions.ts:197-200 | `--5` evaluates to 5: a minus in term position negates the term after it, and stacks |
| ExpressionExamples.NegatedGroupExample | src/lib/expressions.ts:197-200 | `-(3+4)` evaluates to -7 |
| ExpressionExamples.SubtractionsExample | src/lib/expressions.ts:113-131 | `1 - 2 - 3` evaluates to -4: subtraction groups to the left |
| ExpressionExamples.DivisionsExample | src/lib/expressions.ts:139-160 | `8 / 4 / 2` evaluates to 1: division groups to the left |
| ExpressionExamples.TwoNumbersExample | src/lib/expressions.ts:27-31 | `1 2` evaluates to 1: trailing tokens are ignored |
| ExpressionExamples.ExtraParenthesisExample | src/lib/expressions.ts:113-121 | `(1+2))` evaluates to 3: the extra `)` is never looked at |
| ExpressionExamples.DivisionByZeroExample | src/lib/expressions.ts:155-157 | `5 / 0` fails with a division by zero |
| ExpressionExamples.UnclosedExample | src/lib/expressions.ts:186-191 | `(1 + 2` fails with a missing closing parenthesis |
| ExpressionExamples.ClosingExample | src/lib/expressions.ts:202-204 | `)` fails with an unexpected token at position 0 |
| ExpressionExamples.DanglingExample | src/lib/expressions.ts:168-170 | `1 +` fails with an unexpected end of expression |
| ExpressionExamples.EmptyExample | src/lib/expressions.ts:168-170 | the empty expression fails with an unexpected end of expression |
| ExpressionExamples.LeadingPointExample | src/lib/expressions.ts:100 | `.5` fails with an unexpected character `.` at index 0 |
| Grammar.Apply | src/lib/expressions.ts:152-159 | a binary operation fails exactly when it is a division by 0 |
| Grammar.Combine | src/lib/expressions.ts:113-160 | the left operand's error comes first, then the right one's, then a division by zero; otherwise the operation's value |
| Grammar.Eval | src/lib/expressions.ts:106-205 | the value of a syntax tree can only fail by division by zero |
| Grammar.TermSpelled | src/lib/expressions.ts:165-205 | `parseTerm` on the tokens of a term computes the term's value and stops right after them |
| Grammar.ProductSpelled | src/lib/expressions.ts:136-163 | `parseMultiplyDivide` on the tokens of a left-grouped product computes its value, when no `*` or `/` follows |
| Grammar.SumSpelled | src/lib/expressions.ts:110-134 | `parseAddSubtract` on the tokens of a left-grouped sum of products computes its value |
| Grammar.EvalSpelled | src/lib/expressions.ts:106-205 | the parser evaluates the tokens of every precedence-respecting tree to the tree's value (`*` and `/` bind tighter, each level groups to the left) |
| Templates.KeyLengthFacts | src/lib/templates.ts:20-23 | the key runs up to the first `}` or the end of the template |
| Templates.SourceSegments | src/lib/templates.ts:12-39 | the segments of a template, written back out, are the template |
| Templates.SegmentsWellFormed | src/lib/templates.ts:12-39 | the segmentation is well formed: no literal character is `{`, no key holds a `}`, an unclosed `{` comes last and runs to the end |
| Templates.SegmentsUnique | src/lib/templates.ts:12-39 | the segmentation is the only well-formed one with that text |
| Templates.ExpandEmpty | src/lib/templates.ts:5-7 | the empty template comes out unchanged and the resolver is not called |
| Templates.LiteralPrefix | src/lib/templates.ts:34-38 | text without a `{` is copied as it is (a `}` included) and asks the resolver nothing |
| Templates.NoPlaceholder | src/lib/templates.ts:34-38 | a template without `{` comes out unchanged and the resolver is never called |
| Templates.ClosedPlaceholder | src/lib/templates.ts:14-29 | `{key}` is replaced by `replace(key)`, the key may hold `{`, the resolver is asked for it once and scanning resumes after the `}` |
| Templates.UnclosedKept | src/lib/templates.ts:30-33 | a `{` with no `}` after it is kept with the rest of the text, and the resolver is not called |
| Templates.OnePlaceholder | src/lib/templates.ts:12-39 | text, one placeholder, text: only the placeholder is replaced and only its key is asked for |
| Templates.UnclosedAfter | src/lib/templates.ts:30-33 | text followed by an unclosed `{` comes out unchanged |
| Templates.ExpandAgrees | src/lib/templates.ts:27 | the output depends on the resolver only through the keys it is asked for |
| Templates.ExpandBraced | src/lib/templates.ts:12-39 | answering each key with the placeholder itself gives the template back |
| Templates.ExpandFromSegments | src/lib/templates.ts:12-39 | walking the template by index expands it as its segments say, and asks for the keys in order |
| Templates.ReadKey | src/lib/templates.ts:19-23 | the inner loop collects the characters up to the first `}` or the end, and stops there |
| Templates.Evaluate | src/lib/templates.ts:1-42 | the scanner's output is the segment-wise expansion of the template, and the resolver is called exactly once per closed placeholder, left to right |
| TemplateExamples.FriendExample | src/lib/__tests__/templates.test.ts:5-9 | `{friend_name}` is replaced by John and the rest is copied |
| TemplateExamples.TwoPlaceholders | src/lib/templates.ts:12-39 | text, placeholder, text, placeholder, text: both are replaced and asked for in order |
| TemplateExamples.WeatherExample | src/lib/__tests__/templates.test.ts:10-24 | two placeholders are each replaced by their own answer |
| TemplateExamples.IncompleteExample | src/lib/__tests__/templates.test.ts:25-29 | `Incomplete key {still works` comes out unchanged and nothing is asked |
| TemplateExamples.ExpressionExample | src/lib/__tests__/expressionsTemplates.test.ts:5-10 | a placeholder holding an expression is replaced by the rendered value 23 |
| Chars.Split | src/components/form/EntryForm.tsx:64 | `split(",")` gives at least one piece and no piece holds the separator |
| Chars.JoinSplit | src/components/form/EntryForm.tsx:64 | joining the pieces with the separator gives the input back |
| Chars.Trim | src/components/form/EntryForm.tsx:65 | `trim()` keeps one contiguous part of the string in place, the part after the leading whitespace, and that part neither starts nor ends with whitespace |
| Chars.TrimDrops | src/components/form/EntryForm.tsx:65 | every character `trim()` drops, before or after the part it keeps, is whitespace |
| Chars.ToUpper | src/lib/utils.ts:23 | `toUpperCase` maps a lowercase ASCII letter to the uppercase letter at the same place in the alphabet and leaves other characters |
| Chars.ToLower | src/lib/utils.ts:14 | `toLowerCase` maps an uppercase ASCII letter to the lowercase letter at the same place in the alphabet and leaves other characters |
| Utils.LowerCase | src/lib/utils.ts:14 | the lowercased string has the same length, no uppercase letter, each uppercase letter turned into the lowercase letter at the same place in the alphabet, and every other character unchanged |
| Utils.CamelToSnake | src/lib/utils.ts:13-15 | the output has no uppercase ASCII letter |
| Utils.CamelToSnakeMarks | src/lib/utils.ts:14 | `_` goes exactly before each uppercase letter that directly follows a lowercase letter or digit, every character keeps its order, and the result is lowercased |
| Utils.CamelToSnakeLower | src/lib/utils.ts:14 | a string without uppercase letters is returned unchanged |
| Utils.CamelToSnakeIdempotent | src/lib/utils.ts:13-15 | converting twice is converting once |
| Utils.SnakeToCamel | src/lib/utils.ts:22-24 | the conversion never lengthens the string; `SnakeToCamelChars` gives the full rule |
| Utils.SnakeToCamelChars | src/lib/utils.ts:23 | `snakeToCamel` drops exactly each `_` directly followed by a lowercase letter and uppercases that letter. Every other character, a `_` before anything else included, is kept in order |
| Utils.SnakeToCamelKeep | src/lib/utils.ts:23 | a `_` followed by anything but a lowercase letter is kept, and the scan goes on at the next character |
| Utils.SnakeToCamelKeptExamples | src/lib/utils.ts:23 | "a_1" comes back unchanged, and "__a" becomes "_A" |
| Utils.SnakeToCamelFirst | src/lib/utils.ts:23 | the first character of the result is lowercase exactly when that of the input is |
| Utils.SnakeToCamelJoined | src/lib/utils.ts:22-24 | after `snakeToCamel` no `_` is directly followed by a lowercase letter |
| Utils.SnakeToCamelPlain | src/lib/utils.ts:23 | a string without `_` comes back unchanged |
| Utils.SnakeCamelRoundTrip | src/lib/utils.ts:8-24 | `snakeToCamel(camelToSnake(s)) == s` for every ASCII alphanumeric camelCase name (no leading uppercase letter, no two uppercase letters in a row) |
| NetlifyUtils.CamelToSnake | netlify/utils.ts:6-8 | the serverless copy leaves no uppercase letter, returns a string without uppercase letters unchanged and is idempotent |
| Entries.Get | src/data/createNumberReplacer.tsx:10 | a stored key reads its value, a missing one reads as undefined |
| Entries.Truthy | src/data/createNumberReplacer.tsx:21 | a stored value is falsy exactly when it is undefined, null, the empty string, 0 or false |
| Entries.StrictEquals | src/data/createNumberReplacer.tsx:19 | `===` holds only between equal values; an array is never identical to anything; other values are identical exactly when equal |
| Entries.FindField | src/data/createNumberReplacer.tsx:11 | `find` returns the first field with that name, or none when no field has it |
| Entries.FindChoice | src/data/createNumberReplacer.tsx:19 | `find` returns the first choice whose value is strictly equal to the stored value, or none |
| Replacers.ChoiceModifier | src/data/createNumberReplacer.tsx:19 | the first matching choice's modifier, 0 without a match or a modifier |
| Replacers.FieldNumber | src/data/createNumberReplacer.tsx:13-28 | a missing field gives 0, a choice its modifier, a boolean 1 when truthy and 0 otherwise, every other type 0; every result is 0, 1 or a modifier of the field's choices |
| Replacers.NumberFor | src/data/createNumberReplacer.tsx:8-29 | the key is converted with `snakeToCamel` first; with no field of that name the result is 0, and otherwise 0, 1 or a choice's modifier |
| Replacers.NumberReplacer | src/data/createNumberReplacer.tsx:4-29 | the resolver answers every key as NumberFor does |
| Replacers.ChoiceTitle | src/data/createReplacer.tsx:18-21 | the first matching choice's title, or `<unknown>` |
| Replacers.FirstThree | src/data/createReplacer.tsx:23 | `slice(0, 3)`: the prefix of length three, or the whole list when it is shorter |
| Replacers.FieldText | src/data/createReplacer.tsx:13-29 | a missing field renders as the key, a choice as its title, a combo list as its first three items joined with `, ` (a throw when the value is no list), the other typed fields as the stored value, a boolean as undefined |
| Replacers.TextFor | src/data/createReplacer.tsx:8-30 | the key is converted first; with no field of that name the key itself is rendered, and only a combo field can throw |
| Replacers.PlaceholderNamesField | src/data/createNumberReplacer.tsx:9-11 | a placeholder spelled as the snake_case form of a camelCase field name resolves, in both resolvers, to that field |
| Replacers.ComboShowsFirstThree | src/data/createReplacer.tsx:22-23 | a combo field renders exactly its first three items (all of them when there are fewer), joined by ", " |
| Scores.Level | src/data/getEntryScore.ts:14-20 | each colour's position in `colorCoding` |
| Scores.Rating | src/data/getEntryScore.ts:22-30 | bad for every score <= 0, excellent for every score >= 5, the colour at that index for whole scores in between, and no colour for a fraction in between |
| Scores.Band | src/data/getEntryScore.ts:22-30 | on whole numbers `getRating` always gives a colour |
| Scores.BandSteps | src/data/getEntryScore.ts:27-28 | the scores 1 to 4 give poor, average, good and excellent |
| Scores.BandMonotone | src/data/getEntryScore.ts:22-30 | a higher whole score never gives a worse colour |
| Scores.EntryScore | src/data/getEntryScore.ts:32-39 | the rating expression is evaluated with the definition's numeric resolver and banded; an evaluation error propagates |
| Scores.PortionPoints | src/data/getMealScore.ts:75-84 | large adds -1, small adds +1, anything else 0 |
| Scores.HealthPoints | src/data/getMealScore.ts:86-101 | the five health ratings add -2, -1, 0, +1, +2, anything else 0 |
| Scores.MealPoints | src/data/getMealScore.ts:74-101 | the raw meal score always lies in 0..6 |
| Scores.MealScore | src/data/getMealScore.ts:74-110 | the step-by-step score is banded exactly as `getRating` bands the raw score |
| Scores.MealBadOnlyWhen | src/data/getMealScore.ts:74-110 | a meal is bad exactly when it is large and very unhealthy |
| Scores.VeryHealthyExcellent | src/data/getMealScore.ts:74-110 | a very healthy meal is always excellent |
| Scores.MealMonotone | src/data/getMealScore.ts:74-110 | a healthier rating or a smaller portion never gives a worse colour |
| Ranking.Distinct | src/data/getCommonChoices.ts:16-27 | the keys of the counting `Map` in insertion order: every value once, nothing else |
| Ranking.Tally | src/data/getCommonChoices.ts:16-27 | the counting `reduce` gives each distinct value, in first-occurrence order, with its number of occurrences |
| Ranking.SortPermutes | src/data/getCommonChoices.ts:29 | the count-descending sort is a permutation |
| Ranking.SortOrdered | src/data/getCommonChoices.ts:29 | after the sort, counts never increase |
| Ranking.SortStable | src/data/getCommonChoices.ts:29 | elements with equal counts keep their relative order |
| Ranking.RankingDistinct | src/data/getCommonChoices.ts:16-29 | a ranking names every value once and nothing else |
| Ranking.SortIsRanking | src/data/getCommonChoices.ts:16-29 | sorting the distinct values by frequency ranks them: most frequent first, ties in first-occurrence order |
| Ranking.RankByFrequency | src/data/getCommonChoices.ts:16-29 | counting and then sorting yields the ranking of the values |
| Common.FieldValues | src/data/getCommonChoices.ts:8-10 | a value is in the flattened list exactly when some entry's value for the field contributes it |
| Common.Components | src/data/getCommonComponents.ts:4 | a component is in the flattened list exactly when some meal has it |
| Common.Flat | src/data/getCommonChoices.ts:8-10 | `flat(1)` spreads a list into its items and keeps any other value, undefined included |
| Common.MissingFieldCounted | src/data/getCommonChoices.ts:8-14 | an entry without the field contributes undefined, so the fallback is not taken |
| Common.CommonChoices | src/data/getCommonChoices.ts:4-30 | `["Pizza", "Salat"]` when there are no values; otherwise the ranking of the values: each distinct value once, by count descending, ties in first-occurrence order |
| Common.ComponentsOfEach | src/data/getCommonComponents.ts:4 | every component of every meal is counted |
| Common.CommonComponents | src/data/getCommonComponents.ts:3-24 | `["Pizza", "Salat"]` when there are no components; otherwise the ranking of the components |
| DefaultEntries.InitialData | src/data/createDefaultEntry.ts:8-11 | no fields give empty data |
| DefaultEntries.InitialDataKeys | src/data/createDefaultEntry.ts:8-11 | the keys of the data are exactly the field names |
| DefaultEntries.InitialDataLastWins | src/data/createDefaultEntry.ts:9 | each key holds the default value of the last field with that name |
| DefaultEntries.InitialDataValues | src/data/createDefaultEntry.ts:8-11 | every field that is the last of its name sets that key to its default value |
| DefaultEntries.CreateDefaultEntry | src/data/createDefaultEntry.ts:3-21 | data keyed by exactly the field names, each holding the default value of the last field with that name (the `reduce` result); definition id, definition and token passed through; id and date as given |
| DefaultEntries.FindDefinition | src/pages/NewEntryForm.tsx:15 | the first definition with that id, or none exactly when no definition has it |
| DefaultEntries.NewEntry | src/pages/NewEntryForm.tsx:15-36 | nothing exactly when the definition is unknown or has no fields; otherwise an entry for that definition and token whose data is the fold of the defaults |
| DefaultEntries.NewEntryIsDefault | src/pages/NewEntryForm.tsx:22-36 | the form builds the same entry as `createDefaultEntry` |
| EntryForms.NonEmpty | src/components/form/EntryForm.tsx:66 | `filter((c) => c.length)` drops the empty pieces and keeps every other piece as often as it occurs |
| EntryForms.NonEmptyAppend | src/components/form/EntryForm.tsx:66 | the filter works piece by piece, so the kept pieces stay in their order |
| EntryForms.NewComponents | src/components/form/EntryForm.tsx:63-66 | a new component is exactly a non-empty trimmed piece of the comma-separated input |
| EntryForms.TrimAll | src/components/form/EntryForm.tsx:65 | each piece is trimmed in place, so the result holds exactly the trimmed pieces |
| EntryForms.NewComponentsClean | src/components/form/EntryForm.tsx:63-66 | every new piece is non-empty, holds no comma and has no whitespace at either end |
| EntryForms.Merge | src/components/form/EntryForm.tsx:72-79 | the merged list starts with the existing components and holds exactly the existing and the new ones; MergeAppends, MergeKeeps and MergeNoDuplicates give the order and the absence of repeats |
| EntryForms.AddComponents | src/components/form/EntryForm.tsx:62-82 | nothing is reported when no pieces remain; otherwise the list is the old one followed by the new pieces absent from it, each once, in input order (the same merge as src/components/EntryForm.tsx:47-67) |
| EntryForms.MergeAppends | src/components/form/EntryForm.tsx:72-80 | the merge is the existing list plus the distinct pieces not already in it |
| EntryForms.MergeKeeps | src/components/form/EntryForm.tsx:73-80 | the existing list is an unchanged prefix, the members are the union, and the length is at most existing plus pieces |
| EntryForms.MergeNoDuplicates | src/components/form/EntryForm.tsx:72-80 | a duplicate-free list stays duplicate-free |
| EntryForms.MergeNothingNew | src/components/form/EntryForm.tsx:81 | when every piece is present the list reported equals the old one |
| EntryForms.Remove | src/components/form/EntryForm.tsx:58 | every occurrence of the value goes, every other value keeps its number of occurrences (also src/components/EntryForm.tsx:43) |
| EntryForms.RemoveAppend | src/components/form/EntryForm.tsx:58 | filtering distributes over concatenation, so the rest keep their order |
| EntryForms.SinkLast | src/components/form/EntryForm.tsx:151-152 | one insertion step moves the next field back into the ascending prefix, by swaps only |
| EntryForms.SortFields | src/components/form/EntryForm.tsx:150-153 | the field array is sorted in place into ascending `order`, a permutation of the old one (also src/components/EntryForm.tsx:132-133) |
| Agenda.OnDayMembers | src/pages/AgendaPage.tsx:135-144 | an entry is on exactly the day of its own date |
| Agenda.PlaceBuckets | src/pages/AgendaPage.tsx:140-144 | pushing an entry creates only its own day if missing, appends to it, and changes no other day |
| Agenda.Place | src/pages/AgendaPage.tsx:140-144 | after the push the entry's year, month and day all exist, and its day holds the earlier entries of that day followed by the entry |
| Agenda.PlaceNoEmpty | src/pages/AgendaPage.tsx:140-144 | no empty year, month or day record is ever created |
| Agenda.PlaceGroups | src/pages/AgendaPage.tsx:134-145 | one step of the `reduce` keeps the records equal to the grouping of the entries seen |
| Agenda.GroupByYearMonthDay | src/pages/AgendaPage.tsx:131-147 | a day exists exactly when some entry has that date, it holds exactly those entries in input order, and no bucket is empty |
| Agenda.EveryEntryShownOnce | src/pages/AgendaPage.tsx:140-144 | over distinct dates covering every entry, the bucket sizes add up to the number of entries |
| Agenda.Descending | src/pages/AgendaPage.tsx:26-42 | the keys of a level (years, the months of a year, the days of a month), each once, in strictly descending numeric order |
| DefinitionList.DefinitionIds | src/pages/DefinitionListPage.tsx:18-26 | the definition ids of the entries, in order |
| DefinitionList.EntryCount | src/pages/DefinitionListPage.tsx:34-35 | `entryCountByDefinition[id]`, or 0 when that is undefined: a counted id reads its count, any other id 0 |
| DefinitionList.CountByDefinition | src/pages/DefinitionListPage.tsx:18-26 | an id is counted exactly when it is non-empty and used, and its count is its number of entries; the empty id counts 0 |
| DefinitionList.ByUseFacts | src/pages/DefinitionListPage.tsx:31-37 | the list shown is a permutation of the definitions (none without definitions), counts never increase, and equally used definitions keep their order |
| DefinitionList.ByUse | src/pages/DefinitionListPage.tsx:31-37 | the list shown is a permutation of the definitions, and empty when there are none |
| MealStats.Percentage | src/pages/MealStatsPage.tsx:30-32 | the share in whole percent rounded half up, 0 when there is nothing to divide by |
| MealStats.PercentageBounds | src/pages/MealStatsPage.tsx:30-32 | a share of a total lies between 0 and 100 |
| MealStats.NamesSort | src/pages/MealStatsPage.tsx:35 | sorting the stats by count sorts their names as the ranking does |
| MealStats.TotalSort | src/pages/MealStatsPage.tsx:35 | sorting keeps the sum of the counts |
| MealStats.SumOverDistinct | src/pages/MealStatsPage.tsx:22-24 | the counts of the distinct components add up to the number of components |
| MealStats.FrequencyAtMostLength | src/pages/MealStatsPage.tsx:23 | no component is counted more often than there are components |
| MealStats.SharedPermutation | src/pages/MealStatsPage.tsx:35 | reordering the stats keeps every percentage the share of its count |
| MealStats.ComponentStats | src/pages/MealStatsPage.tsx:18-36 | one stat per distinct component, ranked by count with ties in first-occurrence order; each count is its number of uses, each percentage its share within 0..100, and the counts add up to the total |
| MealStats.MaxCountIsLargest | src/pages/MealStatsPage.tsx:38 | on stats sorted by count, `maxCount` is attained and no count exceeds it; 0 when there are none |
| MealStats.MaxCount | src/pages/MealStatsPage.tsx:38 | `maxCount` is 0 without stats and otherwise the first stat's count; MaxCountIsLargest shows that is the largest |
| Calendar.OnDateMembers | src/pages/CalendarPage.tsx:28-40 | an entry is listed under its own date string and no other |
| Calendar.EntriesByDay | src/pages/CalendarPage.tsx:28-40 | a date has a list exactly when some entry has it, and the list holds those entries in input order |
| Calendar.FilterOnDate | src/pages/CalendarPage.tsx:42-50 | filtering a date's list is taking that date's entries of the selected definition |
| Calendar.OnDateForMembers | src/pages/CalendarPage.tsx:44-47 | a day shows exactly the entries of that date that the selection shows |
| Calendar.DayEntriesOfGrouping | src/pages/CalendarPage.tsx:42-50 | on the grouping, `getDayEntries` gives the entries of that date for the selected definition, in input order |
| Calendar.FilterNone | src/pages/CalendarPage.tsx:46 | with no definition selected the whole list of the day is shown |
| Calendar.Filter | src/pages/CalendarPage.tsx:45-47 | the filter keeps exactly the entries the selection shows |
| Calendar.DayEntries | src/pages/CalendarPage.tsx:42-50 | `getDayEntries` of a date with no list is empty, and otherwise holds exactly that date's entries of the selected definition |
| Calendar.SelectedDefinition | src/pages/CalendarPage.tsx:23-26 | the only definition when there is exactly one, otherwise the route's parameter; SelectionRules states the consequences |
| Calendar.DefinitionCount | src/pages/CalendarPage.tsx:23 | `definitions?.length ?? 0`: no definitions count 0, otherwise their number |
| Calendar.SelectedMenuItem | src/pages/CalendarPage.tsx:62 | the selected definition's id, or "all" when none is selected |
| Calendar.Route | src/pages/CalendarPage.tsx:63-64 | every menu path starts with `/calendar`; "all" leads to `/calendar` itself and no other key does; any other key is the segment after `/calendar/` |
| Calendar.SelectionRules | src/pages/CalendarPage.tsx:23-26 | with exactly one definition it is selected whatever the route says; otherwise the route decides, and no route means "all" |
| Calendar.RouteInjective | src/pages/CalendarPage.tsx:63-64 | different menu items navigate to different paths, and the key can be read back from every path but that of "all" |
| Calendar.MenuChoiceLost | src/pages/CalendarPage.tsx:20-26 | with the routes as written, choosing any menu item with several definitions leaves "all" selected, because the calendar page the path resolves to has no `definitionId` parameter |
| Calendar.MenuPathRedirected | src/App.tsx:13-28 | the path of every menu item but "all" matches none of the three routes, is redirected to `/calendar` and ends on the calendar page with no parameter |
| Calendar.MenuChoiceKept | src/pages/CalendarPage.tsx:62-64 | with the route `/calendar/:definitionId?`, the chosen menu item is the one selected afterwards, and a definition's key selects that definition |
| Routes.MatchPattern | src/App.tsx:14-24 | a route matches only a path that starts with its literal (ASCII case ignored); the bare literal with or without a trailing "/" gives no parameters; a route without a parameter gives none; a parameter is one non-empty segment after the literal, with an optional trailing "/" |
| Routes.MatchSegment | src/App.tsx:14 | conversely, a segment after the literal of a route with a parameter is read back as that parameter |
| Routes.Switch | src/App.tsx:13-28 | the `<Switch>` redirects to `/calendar` exactly when no route matches |
| Routes.AppRoutes | src/App.tsx:14-28 | the table as written has three routes, and none has a parameter |
| Routes.IntendedRoutes | src/App.tsx:14-16 | the same table, except that the calendar route carries the optional parameter `definitionId` |
| Routes.Resolve | src/App.tsx:26-28 | a path some route matches keeps its page; a redirect is kept only when neither the path nor "/calendar" matches any route |
| Routes.SwitchFirst | src/App.tsx:13-28 | otherwise it shows the page of the first matching route with that route's parameters |
| Routes.DefinitionIdParam | src/pages/CalendarPage.tsx:20 | `useParams().definitionId` is present only when the path leads to the calendar page through a route with that parameter |
| Routes.CalendarHome | src/App.tsx:14-28 | the redirect target `/calendar` shows the calendar page with no parameter, under the routes as written and as intended |
| Routes.NoParamAsWritten | src/App.tsx:14-24 | with the routes as written, no path gives the calendar page a `definitionId` |

## Left out

- Numbers are exact. IEEE-754 doubles, NaN, infinities, `-0` and the float drift of `Math.round` are not modelled.
- `parseFloat` is not modelled in general. Only the prefix rule it meets on NUMBER token texts is: digits, then optionally `.` and digits.
- Converting a resolver's answer to text (`String(25)`, `toString()`) is not modelled. The template resolver returns a string, and the expression-in-template example takes the rendering as a parameter.
- Character classes are ASCII. `\s` is ECMAScript's white space and line terminators, and case mapping covers `a`-`z` and `A`-`Z` only.
- `===` on stored values is datatype equality. Two arrays read from storage are never identical in JavaScript.
- `choices` being absent is the same as an empty list of choices.
- `entries` and `definitions` being `undefined` is modelled as an empty list, or as `None` where the page tells the two apart.
- Inputs that come from outside the core are parameters: `crypto.randomUUID()`, `date.toISOString()`, the user token, and `new Date(entry.date)` read in local time (`Agenda.GroupByYearMonthDay` takes it as `dateOf`).
- `day.dateString` is not a field of the calendar's `Day` type. The day's key is a parameter of `Calendar.DayEntries`.
- Two source-level forms are not modelled:
  - the `"Nothing"` fallback of `createReplacer`, which is unreachable because `join` always returns a string;
  - the `parsedRatingExpression` and two-argument constructor that `getEnryScore` in src/data/getEntryScore.ts calls. `Scores.EntryScore` evaluates the definition's expression text with the shown one-argument parser instead.
- `getEnryScore` in src/data/getMealScore.ts:31-72 is unfinished and does not parse. It is not part of this model.
- Not modelled: React state, rendering, navigation, storage, the network and the service worker. Also left out:
  - `cn`;
  - the header menu component;
  - date formatting;
  - calendar day generation.
- The unordered iteration of `Object.keys` is not modelled. The agenda's keys are a set, and `Agenda.Descending` orders them.
- Agenda.EveryEntryShownOnce: states the bucket-size sum over a list of distinct dates that covers every entry, not over the nested records directly.
- Utils.SnakeToCamel: its own contract only bounds the length. The full character-by-character rule is proved separately, in `Utils.SnakeToCamelChars`.
- Chars.Trim: its own contract states the kept part and its ends. That everything dropped is whitespace is proved separately, in `Chars.TrimDrops`.
- Calendar.SelectedDefinition: `definitions?.[0].id` is modelled as the first definition's id, and JavaScript `==` on `null` as `None`.
- Routes: only the route shapes `src/App.tsx` uses are modelled, a literal optionally followed by one optional `/:name?` segment. Paths are taken below the user's token; the outer `/:token` route, the welcome route and the "NOT FOUND" route are not part of it, and the redirect is followed once.
- EntryForms.SortFields: proved sorted and a permutation. It is not proved stable, which `Array.prototype.sort` is.
- EntryForms.AddComponents: reports the merged list as its result. It does not model the `onChange` callback as a separate call, and it reports `None` where the source returns without calling it.

## Findings

| source | as written | input that shows it | evidently intended | confidence | as-written member | corrected member |
|---|---|---|---|---|---|---|
| src/App.tsx:14-28 | the only calendar route is `/calendar`, which has no parameter, and the header menu navigates to `/calendar/<key>` (src/pages/CalendarPage.tsx:63-64); that path matches no route and is redirected to `/calendar`, so `useParams()` never yields a `definitionId` (src/pages/CalendarPage.tsx:20) | two or more definitions, choose any definition in the header menu: "all" stays selected and every entry stays shown | a route `/calendar/:definitionId?`, so that the chosen definition is selected and filters the days | not executed; medium (relies on the router matching a route without `nest` against the whole path, as `Routes.MatchPattern` models it) | Calendar.MenuChoiceLost | Calendar.MenuChoiceKept |
