/** The status of a suite: the lowest phase and result of its scans, when that depends on their
    order, how the controller records scan statuses one at a time, and what a suite that reports
    COMPLIANT says about its scans. */
module SuiteStatus {
  import opened Options
  import opened Permutations
  import opened ScanTypes

  datatype ScanStatus = ScanStatus(name: string, phase: Phase, result: Result)

  /******* The lowest of a sequence *******/

  // A value not listed has rank 0, like the lowest one that is.
  const STATE_ORDER := map[Pending := 0, Launching := 1, Running := 2, Aggregating := 3, Done := 4]

  const RESULT_ORDER :=
    map[NotAvailable := 0, Error := 1, Inconsistent := 2, NonCompliant := 3, NotApplicable := 4, Compliant := 5]

  function Rank<T(==)>(order: map<T, nat>, value: T): nat {
    if value in order then order[value] else 0
  }

  // The first value of the lowest rank.
  ghost predicate IsFirstLowest<T>(order: map<T, nat>, values: seq<T>, low: T) {
    exists i :: FirstLowestAt(order, values, low, i)
  }

  ghost predicate FirstLowestAt<T>(order: map<T, nat>, values: seq<T>, low: T, i: int) {
    && 0 <= i < |values| && values[i] == low
    && (forall j | 0 <= j < |values| :: Rank(order, low) <= Rank(order, values[j]))
    && (forall j | 0 <= j < i :: Rank(order, low) < Rank(order, values[j]))
  }

  lemma FirstLowestStep<T>(order: map<T, nat>, seen: seq<T>, low: T, value: T)
    requires seen == [] ==> Rank(order, low) > Rank(order, value) || low == value
    requires seen != [] ==> IsFirstLowest(order, seen, low)
    ensures IsFirstLowest(order, seen + [value], if Rank(order, low) > Rank(order, value) then value else low)
  {
    if seen == [] || Rank(order, low) > Rank(order, value) {
      assert FirstLowestAt(order, seen + [value], value, |seen|);
    } else {
      var i :| FirstLowestAt(order, seen, low, i);
      assert FirstLowestAt(order, seen + [value], low, i);
    }
  }

  function Phases(scans: seq<ScanStatus>): seq<Phase> {
    seq(|scans|, i requires 0 <= i < |scans| => scans[i].phase)
  }

  function Results(scans: seq<ScanStatus>): seq<Result> {
    seq(|scans|, i requires 0 <= i < |scans| => scans[i].result)
  }

  ghost predicate IsLowestState(scans: seq<ScanStatus>, phase: Phase) {
    if scans == [] then phase == Pending else IsFirstLowest(STATE_ORDER, Phases(scans), phase)
  }

  ghost predicate IsLowestResult(scans: seq<ScanStatus>, result: Result) {
    if scans == [] then result == NotAvailable else IsFirstLowest(RESULT_ORDER, Results(scans), result)
  }

  function StateCompare(low: Phase, phase: Phase): Phase {
    if Rank(STATE_ORDER, low) > Rank(STATE_ORDER, phase) then phase else low
  }

  function ResultCompare(low: Result, result: Result): Result {
    if Rank(RESULT_ORDER, low) > Rank(RESULT_ORDER, result) then result else low
  }

  // The two methods below leave no choice: there is one lowest phase and one lowest result.
  lemma LowestIsUnique(scans: seq<ScanStatus>)
    ensures forall p, q | IsLowestState(scans, p) && IsLowestState(scans, q) :: p == q
    ensures forall p, q | IsLowestResult(scans, p) && IsLowestResult(scans, q) :: p == q
  {
  }

  predicate SomePhase(scans: seq<ScanStatus>, phase: Phase) {
    exists s | s in scans :: s.phase == phase
  }

  predicate SomeResult(scans: seq<ScanStatus>, result: Result) {
    exists s | s in scans :: s.result == result
  }

  // A suite is as far as the scan that is least far.
  predicate LeastFar(scans: seq<ScanStatus>, phase: Phase) {
    && (phase == NoPhase || phase == Pending <==>
          scans == [] || SomePhase(scans, NoPhase) || SomePhase(scans, Pending))
    && (phase == NoPhase ==> SomePhase(scans, NoPhase))
    && (phase == Pending && scans != [] ==> SomePhase(scans, Pending))
    && (phase == Launching <==>
          SomePhase(scans, Launching) && forall s | s in scans :: s.phase != NoPhase && s.phase != Pending)
    && (phase == Running <==>
          SomePhase(scans, Running) &&
          forall s | s in scans :: s.phase == Running || s.phase == Aggregating || s.phase == Done)
    && (phase == Aggregating <==>
          SomePhase(scans, Aggregating) && forall s | s in scans :: s.phase == Aggregating || s.phase == Done)
    && (phase == Done <==> scans != [] && forall s | s in scans :: s.phase == Done)
  }

  // And has the worst of its results: none yet, then ERROR, INCONSISTENT, NON-COMPLIANT, NOT-APPLICABLE,
  // and COMPLIANT only if all are.
  predicate Worst(scans: seq<ScanStatus>, result: Result) {
    && (result == NoResult || result == NotAvailable <==>
          scans == [] || SomeResult(scans, NoResult) || SomeResult(scans, NotAvailable))
    && (result == NoResult ==> SomeResult(scans, NoResult))
    && (result == NotAvailable && scans != [] ==> SomeResult(scans, NotAvailable))
    && (result == Error <==>
          SomeResult(scans, Error) && forall s | s in scans :: s.result != NoResult && s.result != NotAvailable)
    && (result == Inconsistent <==>
          SomeResult(scans, Inconsistent) &&
          forall s | s in scans :: s.result != NoResult && s.result != NotAvailable && s.result != Error)
    && (result == NonCompliant <==>
          SomeResult(scans, NonCompliant) &&
          forall s | s in scans ::
            s.result == NonCompliant || s.result == NotApplicable || s.result == Compliant)
    && (result == NotApplicable <==>
          SomeResult(scans, NotApplicable) &&
          forall s | s in scans :: s.result == NotApplicable || s.result == Compliant)
    && (result == Compliant <==> scans != [] && forall s | s in scans :: s.result == Compliant)
  }

  lemma LowestIsLeastFar(scans: seq<ScanStatus>, phase: Phase)
    requires IsLowestState(scans, phase)
    ensures LeastFar(scans, phase)
  {
    if scans != [] {
      var i :| FirstLowestAt(STATE_ORDER, Phases(scans), phase, i);
      assert scans[i] in scans && scans[i].phase == phase;
      forall s | s in scans
        ensures Rank(STATE_ORDER, phase) <= Rank(STATE_ORDER, s.phase)
      {
        var j :| 0 <= j < |scans| && scans[j] == s;
        assert Phases(scans)[j] == s.phase;
      }
    }
  }

  lemma LowestIsWorst(scans: seq<ScanStatus>, result: Result)
    requires IsLowestResult(scans, result)
    ensures Worst(scans, result)
  {
    if scans != [] {
      var i :| FirstLowestAt(RESULT_ORDER, Results(scans), result, i);
      assert scans[i] in scans && scans[i].result == result;
      forall s | s in scans
        ensures Rank(RESULT_ORDER, result) <= Rank(RESULT_ORDER, s.result)
      {
        var j :| 0 <= j < |scans| && scans[j] == s;
        assert Results(scans)[j] == s.result;
      }
    }
  }

  method LowestCommonState(scans: seq<ScanStatus>) returns (phase: Phase)
    ensures IsLowestState(scans, phase)
    ensures LeastFar(scans, phase)
  {
    if |scans| == 0 {
      return Pending;
    }
    phase := Done;
    for i := 0 to |scans|
      invariant i == 0 ==> phase == Done
      invariant i > 0 ==> IsFirstLowest(STATE_ORDER, Phases(scans[..i]), phase)
    {
      ghost var seen := Phases(scans[..i]);
      FirstLowestStep(STATE_ORDER, seen, phase, scans[i].phase);
      phase := StateCompare(phase, scans[i].phase);
      assert Phases(scans[..i + 1]) == seen + [scans[i].phase];
    }
    assert scans[..|scans|] == scans;
    LowestIsLeastFar(scans, phase);
  }

  method LowestCommonResult(scans: seq<ScanStatus>) returns (result: Result)
    ensures IsLowestResult(scans, result)
    ensures Worst(scans, result)
  {
    if |scans| == 0 {
      return NotAvailable;
    }
    result := Compliant;
    for i := 0 to |scans|
      invariant i == 0 ==> result == Compliant
      invariant i > 0 ==> IsFirstLowest(RESULT_ORDER, Results(scans[..i]), result)
    {
      ghost var seen := Results(scans[..i]);
      FirstLowestStep(RESULT_ORDER, seen, result, scans[i].result);
      result := ResultCompare(result, scans[i].result);
      assert Results(scans[..i + 1]) == seen + [scans[i].result];
    }
    assert scans[..|scans|] == scans;
    LowestIsWorst(scans, result);
  }

  /******* Order of the scans *******/

  ghost predicate LowestInEveryOrder<T(!new)>(order: map<T, nat>, values: seq<T>, low: T) {
    forall others: seq<T>, other: T | multiset(others) == multiset(values) && IsFirstLowest(order, others, other) ::
      other == low
  }

  predicate Lowest<T(==)>(order: map<T, nat>, values: seq<T>, low: T) {
    low in values && forall v | v in values :: Rank(order, low) <= Rank(order, v)
  }

  // The order does not matter exactly when only one value has the lowest rank.
  lemma OrderIndependence<T(!new)>(order: map<T, nat>, values: seq<T>, low: T)
    requires IsFirstLowest(order, values, low)
    ensures LowestInEveryOrder(order, values, low) <==> forall v | Lowest(order, values, v) :: v == low
  {
    if LowestInEveryOrder(order, values, low) {
      forall v | Lowest(order, values, v)
        ensures v == low
      {
        MoveToFront(order, values, low, v);
      }
    } else {
      var others: seq<T>, other: T :|
        multiset(others) == multiset(values) && IsFirstLowest(order, others, other) && other != low;
      SameMembers(values, others);
      assert forall v | v in others :: Rank(order, other) <= Rank(order, v);
      assert Lowest(order, values, other);
    }
  }

  lemma MoveToFront<T(!new)>(order: map<T, nat>, values: seq<T>, low: T, v: T)
    requires LowestInEveryOrder(order, values, low) && Lowest(order, values, v)
    ensures v == low
  {
    var i :| 0 <= i < |values| && values[i] == v;
    var others := [v] + values[..i] + values[i + 1..];
    assert values == values[..i] + [v] + values[i + 1..];
    assert multiset(others) == multiset(values);
    SameMembers(values, others);
    assert forall j | 0 <= j < |others| :: others[j] in values;
    assert FirstLowestAt(order, others, v, 0);
    assert IsFirstLowest(order, others, v);
  }

  lemma SamePhaseRank(p: Phase, q: Phase)
    ensures Rank(STATE_ORDER, p) == Rank(STATE_ORDER, q) <==>
            p == q || (p == NoPhase && q == Pending) || (p == Pending && q == NoPhase)
  {
  }

  lemma SameResultRank(p: Result, q: Result)
    ensures Rank(RESULT_ORDER, p) == Rank(RESULT_ORDER, q) <==>
            p == q || (p == NoResult && q == NotAvailable) || (p == NotAvailable && q == NoResult)
  {
  }

  // The phase of a suite depends on the order of its scans exactly when one of them was never
  // reconciled and another is pending.
  lemma StateOrderIndependence(scans: seq<ScanStatus>, phase: Phase)
    requires scans != [] && IsLowestState(scans, phase)
    ensures LowestInEveryOrder(STATE_ORDER, Phases(scans), phase) <==>
            !(NoPhase in Phases(scans) && Pending in Phases(scans))
  {
    var values := Phases(scans);
    OrderIndependence(STATE_ORDER, values, phase);
    assert Lowest(STATE_ORDER, values, phase);
    forall v | Lowest(STATE_ORDER, values, v)
      ensures v == phase || (v == NoPhase && phase == Pending) || (v == Pending && phase == NoPhase)
    {
      SamePhaseRank(v, phase);
    }
    if NoPhase in values && Pending in values {
      assert Lowest(STATE_ORDER, values, NoPhase) && Lowest(STATE_ORDER, values, Pending);
    }
  }

  lemma ResultOrderIndependence(scans: seq<ScanStatus>, result: Result)
    requires scans != [] && IsLowestResult(scans, result)
    ensures LowestInEveryOrder(RESULT_ORDER, Results(scans), result) <==>
            !(NoResult in Results(scans) && NotAvailable in Results(scans))
  {
    var values := Results(scans);
    OrderIndependence(RESULT_ORDER, values, result);
    assert Lowest(RESULT_ORDER, values, result);
    forall v | Lowest(RESULT_ORDER, values, v)
      ensures v == result || (v == NoResult && result == NotAvailable) || (v == NotAvailable && result == NoResult)
    {
      SameResultRank(v, result);
    }
    if NoResult in values && NotAvailable in values {
      assert Lowest(RESULT_ORDER, values, NoResult) && Lowest(RESULT_ORDER, values, NotAvailable);
    }
  }

  // DONE and COMPLIANT are reported exactly when every scan, of at least one, reports them.
  lemma DoneWhenAllDone(scans: seq<ScanStatus>, phase: Phase)
    requires IsLowestState(scans, phase)
    ensures phase == Done <==> scans != [] && forall s | s in scans :: s.phase == Done
  {
    if phase == Done {
      forall s | s in scans
        ensures s.phase == Done
      {
        var i :| 0 <= i < |scans| && scans[i] == s;
        assert Phases(scans)[i] == s.phase;
      }
    } else if scans != [] {
      var i :| 0 <= i < |scans| && Phases(scans)[i] == phase;
      assert scans[i] in scans;
    }
  }

  lemma CompliantWhenAllCompliant(scans: seq<ScanStatus>, result: Result)
    requires IsLowestResult(scans, result)
    ensures result == Compliant <==> scans != [] && forall s | s in scans :: s.result == Compliant
  {
    if result == Compliant {
      forall s | s in scans
        ensures s.result == Compliant
      {
        var i :| 0 <= i < |scans| && scans[i] == s;
        assert Results(scans)[i] == s.result;
      }
    } else if scans != [] {
      var i :| 0 <= i < |scans| && Results(scans)[i] == result;
      assert scans[i] in scans;
    }
  }

  /******* Recording the status of a scan *******/

  function IndexOf(recorded: seq<ScanStatus>, name: string): (index: Option<nat>)
    ensures index.Some? ==> index.value < |recorded| && recorded[index.value].name == name
    ensures index.Some? ==> forall j | 0 <= j < index.value :: recorded[j].name != name
    ensures index.None? ==> forall s | s in recorded :: s.name != name
  {
    if recorded == [] then None
    else if recorded[0].name == name then Some(0)
    else match IndexOf(recorded[1..], name)
      case None => None
      case Some(i) => Some(i + 1)
  }

  // A scan has to be recorded when it is new or its phase is not the recorded one.
  predicate IsStale(recorded: seq<ScanStatus>, scan: ScanStatus) {
    match IndexOf(recorded, scan.name)
    case None => true
    case Some(i) => recorded[i].phase != scan.phase
  }

  function Record(recorded: seq<ScanStatus>, scan: ScanStatus): seq<ScanStatus> {
    match IndexOf(recorded, scan.name)
    case None => recorded + [scan]
    case Some(i) => recorded[i := scan]
  }

  function StaleCount(recorded: seq<ScanStatus>, scans: seq<ScanStatus>): nat {
    if scans == [] then 0
    else (if IsStale(recorded, scans[0]) then 1 else 0) + StaleCount(recorded, scans[1..])
  }

  // What one reconcile records: the first stale scan and no other.
  function RecordFirst(recorded: seq<ScanStatus>, scans: seq<ScanStatus>): seq<ScanStatus> {
    if scans == [] then recorded
    else if IsStale(recorded, scans[0]) then Record(recorded, scans[0])
    else RecordFirst(recorded, scans[1..])
  }

  // The suite as the API server holds it. A write with a stale version is refused.
  class Suite {
    var recorded: seq<ScanStatus>
    var phase: Phase
    var result: Result
    var version: nat
    var available: bool

    // The summary is always that of the recorded scans.
    ghost predicate Valid()
      reads this
    {
      recorded != [] ==> IsLowestState(recorded, phase) && IsLowestResult(recorded, result)
    }

    constructor ()
      ensures Valid() && recorded == [] && version == 0
    {
      recorded, phase, result, version, available := [], Pending, NotAvailable, 0, true;
    }

    method UpdateStatus(statuses: seq<ScanStatus>, read: nat) returns (ok: bool)
      requires Valid()
      modifies `recorded, `phase, `result, `version
      ensures Valid()
      ensures ok == (available && read == old(version))
      ensures version == if ok then old(version) + 1 else old(version)
      ensures recorded == if ok then statuses else old(recorded)
    {
      var low := LowestCommonState(statuses);
      var worst := LowestCommonResult(statuses);
      ok := available && read == version;
      if ok {
        recorded, phase, result, version := statuses, low, worst, version + 1;
      }
    }

    // `copy` is the list of statuses as it was read; the write goes out on a copy of its own.
    method ReconcileScanStatus(copy: seq<ScanStatus>, read: nat, scan: ScanStatus) returns (ok: bool)
      requires Valid()
      modifies `recorded, `phase, `result, `version
      ensures Valid()
      ensures ok == (!IsStale(copy, scan) || (available && read == old(version)))
      ensures version == if ok && IsStale(copy, scan) then old(version) + 1 else old(version)
      ensures recorded == if ok && IsStale(copy, scan) then Record(copy, scan) else old(recorded)
    {
      for i := 0 to |copy|
        invariant forall j | 0 <= j < i :: copy[j].name != scan.name
        invariant unchanged(this)
      {
        if copy[i].name == scan.name {
          assert IndexOf(copy, scan.name) == Some(i);
          if copy[i].phase == scan.phase {
            return true;
          }
          ok := UpdateStatus(copy[i := scan], read);
          return;
        }
      }
      assert IndexOf(copy, scan.name) == None;
      ok := UpdateStatus(copy + [scan], read);
    }

    // The list is copied for every write and the copies keep the version of the first, so a
    // second write in the same reconcile is refused: the first stale scan is recorded, and the
    // reconcile fails if there is another.
    method ReconcileScans(copy: seq<ScanStatus>, read: nat, scans: seq<ScanStatus>) returns (ok: bool)
      requires Valid() && (read == version ==> copy == recorded)
      modifies `recorded, `phase, `result, `version
      ensures Valid()
      ensures ok <==> StaleCount(copy, scans) <= if available && read == old(version) then 1 else 0
      ensures recorded == if available && read == old(version) then RecordFirst(old(recorded), scans) else old(recorded)
    {
      for i := 0 to |scans|
        invariant Valid()
        invariant version == old(version) ==>
                    && recorded == old(recorded)
                    && StaleCount(copy, scans) == StaleCount(copy, scans[i..])
                    && RecordFirst(copy, scans) == RecordFirst(copy, scans[i..])
        invariant version != old(version) ==>
                    && version == old(version) + 1 && available && read == old(version)
                    && recorded == RecordFirst(copy, scans)
                    && StaleCount(copy, scans) == 1 + StaleCount(copy, scans[i..])
      {
        assert scans[i..][0] == scans[i] && scans[i..][1..] == scans[i + 1..];
        var written := ReconcileScanStatus(copy, read, scans[i]);
        if !written {
          return false;
        }
      }
      return true;
    }
  }

  /******* Recording all scans *******/

  predicate DistinctNames(scans: seq<ScanStatus>) {
    forall i, j | 0 <= i < j < |scans| :: scans[i].name != scans[j].name
  }

  lemma IndexOfIs(recorded: seq<ScanStatus>, name: string, i: nat)
    requires i < |recorded| && recorded[i].name == name && forall j | 0 <= j < i :: recorded[j].name != name
    ensures IndexOf(recorded, name) == Some(i)
  {
  }

  lemma RecordKeepsOthers(recorded: seq<ScanStatus>, scan: ScanStatus, other: ScanStatus)
    requires scan.name != other.name
    ensures IsStale(Record(recorded, scan), other) == IsStale(recorded, other)
    ensures !IsStale(Record(recorded, scan), scan)
  {
    var after := Record(recorded, scan);
    match IndexOf(recorded, other.name) {
      case Some(i) => IndexOfIs(after, other.name, i);
      case None =>
        if IndexOf(after, other.name).Some? {
          var i := IndexOf(after, other.name).value;
          assert i < |recorded| ==> recorded[i] in recorded;
        }
    }
    match IndexOf(recorded, scan.name) {
      case Some(i) => IndexOfIs(after, scan.name, i);
      case None =>
        assert forall j | 0 <= j < |recorded| :: recorded[j] in recorded;
        IndexOfIs(after, scan.name, |recorded|);
    }
  }

  lemma {:induction false} RecordKeepsCount(recorded: seq<ScanStatus>, scan: ScanStatus, scans: seq<ScanStatus>)
    requires forall s | s in scans :: s.name != scan.name
    ensures StaleCount(Record(recorded, scan), scans) == StaleCount(recorded, scans)
  {
    if scans == [] {
    } else {
      RecordKeepsOthers(recorded, scan, scans[0]);
      RecordKeepsCount(recorded, scan, scans[1..]);
    }
  }

  // Every reconcile leaves one stale scan less, until there is none.
  lemma {:induction false} ReconcileMakesProgress(recorded: seq<ScanStatus>, scans: seq<ScanStatus>)
    requires DistinctNames(scans)
    ensures StaleCount(RecordFirst(recorded, scans), scans) ==
            if StaleCount(recorded, scans) == 0 then 0 else StaleCount(recorded, scans) - 1
  {
    if scans == [] {
    } else {
      var scan, rest := scans[0], scans[1..];
      assert forall s | s in rest :: s.name != scan.name;
      if IsStale(recorded, scan) {
        RecordKeepsCount(recorded, scan, rest);
        RecordKeepsOthers(recorded, scan, scan.(name := scan.name + "x"));
      } else {
        ReconcileMakesProgress(recorded, rest);
        FirstStale(recorded, rest);
        if StaleCount(recorded, rest) > 0 {
          var other :| other in rest && RecordFirst(recorded, rest) == Record(recorded, other);
          RecordKeepsOthers(recorded, other, scan);
        }
      }
    }
  }

  lemma {:induction false} FirstStale(recorded: seq<ScanStatus>, scans: seq<ScanStatus>)
    ensures StaleCount(recorded, scans) == 0 ==> RecordFirst(recorded, scans) == recorded
    ensures StaleCount(recorded, scans) > 0 ==>
              exists s | s in scans :: RecordFirst(recorded, scans) == Record(recorded, s)
  {
    if scans == [] {
    } else {
      if IsStale(recorded, scans[0]) {
        assert scans[0] in scans;
      } else {
        FirstStale(recorded, scans[1..]);
      }
    }
  }

  function Reconciled(recorded: seq<ScanStatus>, scans: seq<ScanStatus>, times: nat): seq<ScanStatus> {
    if times == 0 then recorded else RecordFirst(Reconciled(recorded, scans, times - 1), scans)
  }

  // Scans that stay as they are have all been recorded after as many reconciles as were stale,
  // and not before.
  lemma {:induction false} EveryScanRecordedInTime(recorded: seq<ScanStatus>, scans: seq<ScanStatus>, times: nat)
    requires DistinctNames(scans)
    ensures StaleCount(Reconciled(recorded, scans, times), scans) == 0 <==> StaleCount(recorded, scans) <= times
    ensures times <= StaleCount(recorded, scans) ==>
              StaleCount(Reconciled(recorded, scans, times), scans) == StaleCount(recorded, scans) - times
  {
    if times == 0 {
    } else {
      EveryScanRecordedInTime(recorded, scans, times - 1);
      ReconcileMakesProgress(Reconciled(recorded, scans, times - 1), scans);
    }
  }

  /******* A suite that reports COMPLIANT *******/

  // A finished scan whose settings are found invalid turns to ERROR within DONE, and no reconcile
  // records it. SuiteRuns says when exactly a record is out of date.
  lemma CompliantSuiteWithFailingScan(recorded: seq<ScanStatus>, scans: seq<ScanStatus>, times: nat)
    requires recorded == [ScanStatus("worker", Done, Compliant)] && scans == [ScanStatus("worker", Done, Error)]
    ensures Reconciled(recorded, scans, times) == recorded
    ensures IsLowestResult(Reconciled(recorded, scans, times), Compliant)
  {
    IndexOfIs(recorded, "worker", 0);
    if times > 0 {
      CompliantSuiteWithFailingScan(recorded, scans, times - 1);
      FirstStale(recorded, scans);
      assert StaleCount(recorded, scans) == 0;
    }
    assert FirstLowestAt(RESULT_ORDER, Results(recorded), Compliant, 0);
  }
}
