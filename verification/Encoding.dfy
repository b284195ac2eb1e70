/** What both encoders check of a family before they write anything of it. */
module Encoding {
  import opened Wrappers

  datatype Refusal = NoMetrics | NoName

  /** A family without metrics is refused, and one without a name. */
  function CheckMetricFamily(metrics: nat, name: string): (r: Result<(), Refusal>)
    ensures r.Ok? <==> metrics > 0 && name != ""
    ensures r == Err(NoMetrics) <==> metrics == 0
  {
    if metrics == 0 then Err(NoMetrics) else if name == "" then Err(NoName) else Ok(())
  }

  /** How many families come before the first one that does not pass the check. */
  function Accepted<M, E>(check: M -> Result<(), E>, ms: seq<M>): (k: nat)
    ensures k <= |ms|
    ensures forall i :: 0 <= i < k ==> check(ms[i]).Ok?
    ensures k < |ms| ==> check(ms[k]).Err?
  {
    if ms == [] || check(ms[0]).Err? then 0 else 1 + Accepted(check, ms[1..])
  }
}
