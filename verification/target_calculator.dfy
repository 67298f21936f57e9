/** The display decisions of components/TargetCalculator.tsx. The panel does
    not compute the required IPS itself: it renders a `result` it is given,
    so `result` is an input here. */
module TargetCalculator {
  import opened Types

  /** The `result` prop. */
  datatype TargetResult = TargetResult(requiredIps: real, feasible: bool, message: string, remainingSks: int)

  /** The "-" button of the extend-semester stepper. */
  function Decrement(n: int): (r: int)
    ensures r >= 0
    ensures n >= 1 ==> r == n - 1
    ensures n <= 0 ==> r == 0
  {
    if n - 1 > 0 then n - 1 else 0
  }

  /** The "+" button of the extend-semester stepper. */
  function Increment(n: int): (r: int)
    ensures r == n + 1
  {
    n + 1
  }

  /** Starting from a count the stepper can show (never negative), "-"
      undoes "+", and "-" from 0 stays at 0. */
  lemma StepperRoundTrip(n: int)
    requires n >= 0
    ensures Decrement(Increment(n)) == n
    ensures Decrement(0) == 0
  {
  }

  /** The required-SKS input: `Math.max(0, parseInt(...))`. An integer parse
      is stored clamped at 0; an unparsable input (NaN, here `None`) stays
      unparsable. */
  function RequiredSksInput(parsed: Option<int>): (r: Option<int>)
    ensures r.Some? <==> parsed.Some?
    ensures r.Some? ==> r.value >= 0 && r.value >= parsed.value
    ensures r.Some? && parsed.value >= 0 ==> r.value == parsed.value
    ensures r.Some? && parsed.value < 0 ==> r.value == 0
  {
    match parsed
    case Some(v) => Some(if v > 0 then v else 0)
    case None => None
  }

  /** The three headlines of the result box. */
  datatype Headline = IpsTarget(ips: real) | Tercapai | Mustahil

  /** The headline expression, branches in source order. */
  function HeadlineOf(result: Option<TargetResult>): (h: Headline)
    ensures h.IpsTarget? <==> result.Some? && 0.0 <= result.value.requiredIps <= 4.0
    ensures h.IpsTarget? ==> h.ips == result.value.requiredIps
    ensures !h.IpsTarget? ==> h == Mustahil
  {
    if result.Some? && result.value.requiredIps <= 4.0 && result.value.requiredIps >= 0.0 then
      IpsTarget(result.value.requiredIps)
    else if result.Some? && result.value.requiredIps == 0.0 then
      Tercapai
    else
      Mustahil
  }

  /** The "Tercapai" headline is never shown: a required IPS of 0 already
      takes the first branch. */
  lemma TercapaiUnreachable(result: Option<TargetResult>)
    ensures !HeadlineOf(result).Tercapai?
    ensures result.Some? && result.value.requiredIps == 0.0 ==> HeadlineOf(result) == IpsTarget(0.0)
  {
  }

  /** Green box and icon: feasible and a non-negative required IPS. */
  predicate GreenStyle(result: Option<TargetResult>)
    ensures GreenStyle(result) ==> result.Some? && result.value.feasible
    ensures result.Some? && result.value.requiredIps < 0.0 ==> !GreenStyle(result)
    ensures result.None? ==> !GreenStyle(result)
  {
    result.Some? && result.value.feasible && result.value.requiredIps >= 0.0
  }

  /** Green header text: feasible alone. */
  predicate HeaderGreen(result: Option<TargetResult>)
    ensures result.None? ==> !HeaderGreen(result)
    ensures result.Some? ==> (HeaderGreen(result) <==> result.value.feasible)
  {
    result.Some? && result.value.feasible
  }

  /** A green box always has a green header; a feasible result with a
      negative required IPS gets a green header over an amber box. */
  lemma GreenBoxHasGreenHeader(result: Option<TargetResult>)
    ensures GreenStyle(result) ==> HeaderGreen(result)
    ensures HeaderGreen(result) && !GreenStyle(result) <==>
              result.Some? && result.value.feasible && result.value.requiredIps < 0.0
  {
  }

  /** The "Sisa" line: shown only for a result with remaining SKS, showing
      the required SKS minus what the remaining SKS covers beyond 24 SKS per
      extended semester, floored at 0. */
  function RemainingDisplay(result: Option<TargetResult>, totalRequiredSks: int, extendedSemesters: int): (r: Option<int>)
    ensures r.Some? <==> result.Some? && result.value.remainingSks > 0
    ensures r.Some? ==> r.value >= 0
    ensures r.Some? ==> r.value >= totalRequiredSks - (result.value.remainingSks - extendedSemesters * 24)
    ensures r.Some? ==> r.value == 0 || r.value == totalRequiredSks - (result.value.remainingSks - extendedSemesters * 24)
  {
    if result.Some? && result.value.remainingSks > 0 then
      var shown := totalRequiredSks - (result.value.remainingSks - extendedSemesters * 24);
      Some(if shown > 0 then shown else 0)
    else
      None
  }
}
