/** The vocabulary of the prediction contract, from src/ai_engine/app/models.py. */
module Signals {
  import opened Wrappers

  /** ts is in microseconds; minuteOfDay is the wall-clock minute of the same instant. */
  datatype Datapoint = Datapoint(ts: int, minuteOfDay: nat, tenant: string, service: string,
                                 metric: string, value: real)

  const ACTION_VERBS: seq<string> := ["SCALE_UP", "SCALE_DOWN", "RETIRE", "ROLLBACK", "INVESTIGATE"]

  datatype Recommendation = Recommendation(verb: string, target: string, fromTo: string,
                                           confidence: real, evidence: string)
  {
    ghost predicate Valid() {
      verb in ACTION_VERBS && 0.0 <= confidence <= 1.0
    }
  }
}
