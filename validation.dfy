/** Stage G: the architecture validation, an if/elif chain over the results
    store that reports at most one violation. */
module Validation {
  import opened Results

  const MISSING_B := "missing b"
  const CONTENTION_TOO_HIGH := "contention too high"
  const NON_LINEAR := "extreme non-linearity"

  /** The violation list: the first rule that fails, if any. A missing
      contention rate or elasticity reads as 0 and passes its rule. */
  function Violations(r: Store): (v: seq<string>)
    requires NumberAt(r, CONTENTION) && NumberAt(r, ELASTICITY)
    ensures |v| <= 1
    ensures THRESHOLD !in r <==> v == [MISSING_B]
    ensures v == [] || v == [MISSING_B] || v == [CONTENTION_TOO_HIGH] || v == [NON_LINEAR]
  {
    if THRESHOLD !in r then [MISSING_B]
    else if NumberOr0(r, CONTENTION) > 1.2 then [CONTENTION_TOO_HIGH]
    else if NumberOr0(r, ELASTICITY) > 2.0 then [NON_LINEAR]
    else []
  }

  /** Every rule that fails, in priority order: what an aggregate check
      would report. */
  function FailedRules(r: Store): (v: seq<string>)
    requires NumberAt(r, CONTENTION) && NumberAt(r, ELASTICITY)
  {
    (if THRESHOLD !in r then [MISSING_B] else [])
    + (if NumberOr0(r, CONTENTION) > 1.2 then [CONTENTION_TOO_HIGH] else [])
    + (if NumberOr0(r, ELASTICITY) > 2.0 then [NON_LINEAR] else [])
  }

  /** The chain reports exactly the first failing rule: at most one
      violation, the one of highest priority. */
  lemma ViolationsAreFirstFailedRule(r: Store)
    requires NumberAt(r, CONTENTION) && NumberAt(r, ELASTICITY)
    ensures |Violations(r)| <= 1
    ensures Violations(r) == if FailedRules(r) == [] then [] else [FailedRules(r)[0]]
  {
  }

  /** The verdict is "valid" exactly when the list is empty, that is when the
      threshold is present, the contention rate (or 0) is at most 1.2 and the
      elasticity (or 0) is at most 2.0. */
  lemma ValidExactly(r: Store)
    requires NumberAt(r, CONTENTION) && NumberAt(r, ELASTICITY)
    ensures Violations(r) == [] <==>
      THRESHOLD in r && NumberOr0(r, CONTENTION) <= 1.2 && NumberOr0(r, ELASTICITY) <= 2.0
  {
  }

  /** A store that breaks both the contention and the elasticity rule
      reports only the contention violation. */
  lemma ContentionOutranksElasticity(r: Store)
    requires NumberAt(r, CONTENTION) && NumberAt(r, ELASTICITY)
    requires THRESHOLD in r && NumberOr0(r, CONTENTION) > 1.2 && NumberOr0(r, ELASTICITY) > 2.0
    ensures Violations(r) == [CONTENTION_TOO_HIGH]
    ensures |FailedRules(r)| == 2
  {
  }
}
