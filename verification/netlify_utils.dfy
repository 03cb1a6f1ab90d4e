/**
 * netlify/utils.ts carries its own copy of `camelToSnake`, with the same
 * regular expression and the same lowercasing as src/lib/utils.ts; the
 * model therefore defines it through `Utils`, and states here what the
 * serverless side relies on.
 */
module NetlifyUtils {
  import opened Chars
  import Utils

  /** camelCase to snake_case: no uppercase letter survives, a string that is
      already snake_case is left alone, and a second conversion changes nothing. */
  function CamelToSnake(camelCase: string): (r: string)
    ensures forall i :: 0 <= i < |r| ==> !IsUpper(r[i])
    ensures (forall i :: 0 <= i < |camelCase| ==> !IsUpper(camelCase[i])) ==> r == camelCase
    ensures Utils.CamelToSnake(r) == r
  {
    Utils.CamelToSnakeIdempotent(camelCase);
    Utils.CamelToSnakeLower(camelCase);
    Utils.CamelToSnake(camelCase)
  }
}
