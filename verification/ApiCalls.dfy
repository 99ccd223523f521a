/** Calls to the API server that may fail: the calls of a program are numbered, and which numbers
    fail is given. */
module ApiCalls {

  // All calls from one number up to another succeed.
  predicate Clean(failing: set<nat>, from: nat, to: nat) {
    forall k | from <= k < to :: k !in failing
  }
}
