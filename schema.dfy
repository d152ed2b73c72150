/**
 * The request validation of the two procedures: the length limits on the
 * generator's inputs and the range and default of the history limit. Like
 * the zod schemas they model, the checks look at raw lengths and values and
 * trim nothing, and every failed check is reported.
 */
module Schema {
  import opened Wrappers

  const MaxRealNameLength := 100
  const MaxKeywordLength := 50
  const MaxLimit := 100
  const DefaultLimit := 10

  /** The checks of `generateSuperheroNameInputSchema`, field by field. */
  datatype InputIssue = RealNameRequired | RealNameTooLong | KeywordRequired | KeywordTooLong

  /** Every check of the generation request that fails, in schema order. */
  function GenerateInputIssues(realName: string, keyword: string): (issues: seq<InputIssue>)
    ensures issues == [] <==> 1 <= |realName| <= MaxRealNameLength && 1 <= |keyword| <= MaxKeywordLength
    ensures RealNameRequired in issues <==> realName == []
    ensures RealNameTooLong in issues <==> |realName| > MaxRealNameLength
    ensures KeywordRequired in issues <==> keyword == []
    ensures KeywordTooLong in issues <==> |keyword| > MaxKeywordLength
  {
    (if |realName| < 1 then [RealNameRequired] else [])
    + (if |realName| > MaxRealNameLength then [RealNameTooLong] else [])
    + (if |keyword| < 1 then [KeywordRequired] else [])
    + (if |keyword| > MaxKeywordLength then [KeywordTooLong] else [])
  }

  predicate AcceptsGenerateInput(realName: string, keyword: string) {
    GenerateInputIssues(realName, keyword) == []
  }

  /** The checks of `getSuperheroNamesInputSchema` on a given limit. */
  datatype LimitIssue = NotInteger | NotPositive | TooBig

  /** Every check a given limit fails: `.int()`, `.positive()` and `.max(100)`, in that order. */
  function LimitIssues(x: real): (issues: seq<LimitIssue>)
    ensures issues == [] <==> x.Floor as real == x && 0.0 < x <= MaxLimit as real
  {
    (if x.Floor as real != x then [NotInteger] else [])
    + (if x <= 0.0 then [NotPositive] else [])
    + (if x > MaxLimit as real then [TooBig] else [])
  }

  /** `limit` after `.optional().default(10)`: absent means 10, a given number must pass every check. */
  function ParseLimit(limit: Option<real>): (r: Result<nat, seq<LimitIssue>>)
    ensures limit.None? ==> r == Success(DefaultLimit)
    ensures r.Success? ==> 1 <= r.value <= MaxLimit
    ensures limit.Some? ==> (r.Success? <==> limit.value.Floor as real == limit.value && 0.0 < limit.value <= MaxLimit as real)
    ensures limit.Some? && r.Success? ==> r.value as real == limit.value
    ensures r.Failure? ==> r.error != []
  {
    match limit
    case None => Success(DefaultLimit)
    case Some(x) =>
      var issues := LimitIssues(x);
      if issues == [] then Success(x.Floor) else Failure(issues)
  }
}
