/** Answers to prompts, and outcomes of steps on disk. */
module Oracle {

  /** Any outcome, but a favourable one when `smooth`. */
  method Chance(smooth: bool) returns (yes: bool)
    ensures smooth ==> yes
  {
    yes := *;
    yes := yes || smooth;
  }
}
