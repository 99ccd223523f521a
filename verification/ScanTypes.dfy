/** Phases and results of a scan, shared by scans and suites. */
module ScanTypes {

  // NoPhase and NoResult are the empty strings of a scan that was never reconciled.
  datatype Phase = NoPhase | Pending | Launching | Running | Aggregating | Done

  datatype Result = NoResult | NotAvailable | Compliant | NotApplicable | Error | NonCompliant | Inconsistent

  // A result that tells the user something.
  predicate Final(result: Result) {
    result != NoResult && result != NotAvailable
  }
}
