/** Choices the program does not make: failures, cancellations, timers, clock readings. */
module Surroundings {

  method Happens() returns (b: bool) {
    b := *;
  }

  /** A reading of a clock that does not run backwards. */
  method ClockAfter(earlier: int) returns (t: int)
    ensures t >= earlier
  {
    t := *;
    if t < earlier { t := earlier; }
  }
}
