/**
 * Colour banding of scores: `getRating` and `getEnryScore` in
 * src/data/getEntryScore.ts, and `getMealScore` in src/data/getMealScore.ts
 * (whose own `getRating` is the same code).
 */
module Scores {
  import opened Wrappers
  import opened Entries
  import Expressions
  import Replacers

  datatype RatingColor = Bad | Poor | Average | Good | Excellent

  /** `colorCoding`, worst first. */
  const ColorCoding: seq<RatingColor> := [Bad, Poor, Average, Good, Excellent]

  /** The position of a colour in `colorCoding`. */
  function Level(c: RatingColor): (n: nat)
    ensures n < |ColorCoding| && ColorCoding[n] == c
  {
    match c
    case Bad => 0
    case Poor => 1
    case Average => 2
    case Good => 3
    case Excellent => 4
  }

  /** `getRating(score)`. Indexing `colorCoding` with a fraction yields
      `undefined`, which is `None` here. */
  function Rating(score: real): (r: Option<RatingColor>)
    ensures score <= 0.0 ==> r == Some(Bad)
    ensures score >= |ColorCoding| as real ==> r == Some(Excellent)
    ensures r.None? <==> 0.0 < score < |ColorCoding| as real && score != score.Floor as real
    ensures 0.0 < score < |ColorCoding| as real && r.Some? ==> Level(r.value) as real == score
  {
    if score <= 0.0 then Some(Bad)
    else if score >= |ColorCoding| as real then Some(Excellent)
    else if score == score.Floor as real then Some(ColorCoding[score.Floor])
    else None
  }

  /** `getRating` on a whole-number score, which always has a colour. */
  function Band(score: int): (c: RatingColor)
    ensures Rating(score as real) == Some(c)
  {
    if score <= 0 then Bad
    else if score >= |ColorCoding| then Excellent
    else ColorCoding[score]
  }

  /** The integer scores 1 to 4 take the colours in order. */
  lemma BandSteps()
    ensures Band(1) == Poor && Band(2) == Average && Band(3) == Good && Band(4) == Excellent
  {
  }

  /** A higher whole-number score never gets a worse colour. */
  lemma BandMonotone(a: int, b: int)
    requires a <= b
    ensures Level(Band(a)) <= Level(Band(b))
  {
  }

  /** `getEnryScore(entry)`: the definition's rating expression evaluated
      with `createNumberReplacer(definition, data)` as its resolver, then
      banded. A parse or evaluation error propagates to the caller. */
  function EntryScore(entry: Entry): (r: Result<Option<RatingColor>, Expressions.ParseError>)
    ensures var v := Expressions.Evaluate(entry.definition.ratingExpression,
        Replacers.NumberReplacer(entry.definition, entry.data));
      (v.Err? ==> r == Err(v.error)) && (v.Ok? ==> r == Ok(Rating(v.value)))
  {
    match Expressions.Evaluate(entry.definition.ratingExpression, Replacers.NumberReplacer(entry.definition, entry.data))
    case Ok(score) => Ok(Rating(score))
    case Err(e) => Err(e)
  }

  /* ---------------------------------------------------------------------- */
  /* getMealScore                                                            */
  /* ---------------------------------------------------------------------- */

  /** What the portion size adds to the base score of 3. */
  function PortionPoints(portionSize: Value): (d: int)
    ensures -1 <= d <= 1
    ensures d == -1 <==> portionSize == Str("large")
    ensures d == 1 <==> portionSize == Str("small")
  {
    if portionSize == Str("large") then -1
    else if portionSize == Str("small") then 1
    else 0
  }

  /** What the health rating adds to the base score of 3. */
  function HealthPoints(healthRating: Value): (d: int)
    ensures -2 <= d <= 2
    ensures d == -2 <==> healthRating == Str("very-unhealthy")
    ensures d == -1 <==> healthRating == Str("unhealthy")
    ensures d == 1 <==> healthRating == Str("healthy")
    ensures d == 2 <==> healthRating == Str("very-healthy")
  {
    if healthRating == Str("very-unhealthy") then -2
    else if healthRating == Str("unhealthy") then -1
    else if healthRating == Str("healthy") then 1
    else if healthRating == Str("very-healthy") then 2
    else 0
  }

  /** The raw meal score, which always lies in 0..6. */
  function MealPoints(portionSize: Value, healthRating: Value): (s: int)
    ensures 0 <= s <= 6
  {
    3 + PortionPoints(portionSize) + HealthPoints(healthRating)
  }

  /** `getMealScore(entry)`: the score starts at 3, is adjusted by the
      portion size and then by the health rating, and is banded. */
  method MealScore(entry: Entry) returns (color: RatingColor)
    ensures color == Band(MealPoints(Get(entry.data, "portionSize"), Get(entry.data, "healthRating")))
  {
    var score := 3;

    var portionSize := Get(entry.data, "portionSize");
    if portionSize == Str("large") {
      score := score - 1;
    } else if portionSize == Str("small") {
      score := score + 1;
    }

    var healthRating := Get(entry.data, "healthRating");
    if healthRating == Str("very-unhealthy") {
      score := score - 2;
    } else if healthRating == Str("unhealthy") {
      score := score - 1;
    } else if healthRating == Str("neutral") {
    } else if healthRating == Str("healthy") {
      score := score + 1;
    } else if healthRating == Str("very-healthy") {
      score := score + 2;
    }

    if score <= 0 {
      color := Bad;
    } else if score >= |ColorCoding| {
      color := Excellent;
    } else {
      color := ColorCoding[score];
    }
  }

  /** A meal is rated bad only when it is large and very unhealthy. */
  lemma MealBadOnlyWhen(portionSize: Value, healthRating: Value)
    ensures Band(MealPoints(portionSize, healthRating)) == Bad
      <==> portionSize == Str("large") && healthRating == Str("very-unhealthy")
  {
  }

  /** A very healthy meal is always rated excellent. */
  lemma VeryHealthyExcellent(portionSize: Value)
    ensures Band(MealPoints(portionSize, Str("very-healthy"))) == Excellent
  {
  }

  /** A healthier rating or a smaller portion never gets a worse colour. */
  lemma MealMonotone(p1: Value, h1: Value, p2: Value, h2: Value)
    requires PortionPoints(p1) <= PortionPoints(p2) && HealthPoints(h1) <= HealthPoints(h2)
    ensures Level(Band(MealPoints(p1, h1))) <= Level(Band(MealPoints(p2, h2)))
  {
    BandMonotone(MealPoints(p1, h1), MealPoints(p2, h2));
  }
}
